/**
 * The `SPFMaker` component (src/app/spfmaker/form.tsx): a second copy of the
 * generator with its own initial configuration, effect, change handler and
 * reset handler. Its effect is proved against the same record specification
 * as the hook's, so the two copies produce the same record for every
 * configuration.
 */
module SpfForm {
  import opened Text
  import opened SpfRecord

  /** `initialConfig`. */
  const InitialConfig := Config("", "-", "-", "-", "", "", "", "-")

  /** The component starts from the same configuration as the hook. */
  lemma InitialIsDefault()
    ensures InitialConfig == DefaultConfig
    ensures Record(InitialConfig) == ""
  {
    DefaultRecord();
  }

  /** The component's record-building effect, written out as in the component. */
  method GenerateRecord(c: Config) returns (record: string)
    ensures record == Record(c)
  {
    if !CheckDomain(c.domain) {
      record := "";
      return;
    }
    record := StartRecord(c);
    ghost var done := ["v=spf1"] + FlagTokens(c);
    record := AppendList(record, done, "ip4:", c.ipAddresses);
    done := done + ListTokens("ip4:", c.ipAddresses);
    record := AppendList(record, done, "a:", c.serverHostnames);
    done := done + ListTokens("a:", c.serverHostnames);
    record := AppendList(record, done, "include:", c.relayDomains);
    done := done + ListTokens("include:", c.relayDomains);
    CloseRecord(record, done, c.strictness);
    record := record + (if c.strictness == "Strict" then " -all" else if c.strictness == "Neutral" then " ?all" else " ~all");
    TokensParts(c);
  }

  /** The component's state: the configuration and the record shown for it. */
  class SpfFormState {
    var config: Config
    var spfRecord: string

    constructor ()
      ensures config == InitialConfig && spfRecord == ""
      ensures spfRecord == Record(config)
    {
      config := InitialConfig;
      spfRecord := "";
      InitialIsDefault();
    }

    /** The effect on `[config]`. */
    method RefreshRecord()
      modifies this`spfRecord
      ensures spfRecord == Record(config)
    {
      spfRecord := GenerateRecord(config);
    }

    /** `handleChange(field, value)`, followed by the effect it triggers. */
    method HandleChange(f: Field, value: string)
      modifies this
      ensures config == old(config).With(f, value)
      ensures spfRecord == Record(config)
    {
      config := config.With(f, value);
      RefreshRecord();
    }

    /** `handleReset`: back to `initialConfig` with an empty record, which the effect leaves empty. */
    method HandleReset()
      modifies this
      ensures config == InitialConfig && spfRecord == ""
      ensures spfRecord == Record(config)
    {
      config := InitialConfig;
      spfRecord := "";
      RefreshRecord();
      InitialIsDefault();
    }
  }
}
