/**
 * The `useSPFMaker` hook (src/app/spfmaker/spfmaker.tsx): the configuration
 * state, the effect that rebuilds the record whenever the configuration
 * changes, and the change and reset handlers.
 */
module SpfMaker {
  import opened Text
  import opened SpfRecord

  /**
   * The record-building effect: an empty record for a refused domain,
   * otherwise `v=spf1` grown term by term with `+=`.
   */
  method GenerateRecord(c: Config) returns (record: string)
    ensures record == Record(c)
  {
    if !CheckDomain(c.domain) {
      record := "";
      return;
    }
    record := StartRecord(c);
    ghost var done := ["v=spf1"] + FlagTokens(c);
    record := AppendList(record, done, "ip4:", c.ipAddresses);
    done := done + ListTokens("ip4:", c.ipAddresses);
    record := AppendList(record, done, "a:", c.serverHostnames);
    done := done + ListTokens("a:", c.serverHostnames);
    record := AppendList(record, done, "include:", c.relayDomains);
    done := done + ListTokens("include:", c.relayDomains);
    CloseRecord(record, done, c.strictness);
    record := record + (if c.strictness == "Strict" then " -all" else if c.strictness == "Neutral" then " ?all" else " ~all");
    TokensParts(c);
  }

  /** The hook's state: the configuration and the record shown for it. */
  class SpfMakerHook {
    var config: Config
    var spfRecord: string

    constructor ()
      ensures config == DefaultConfig && spfRecord == ""
      ensures spfRecord == Record(config)
    {
      config := DefaultConfig;
      spfRecord := "";
      DefaultRecord();
    }

    /** The effect on `[config]`: the record is rebuilt from the configuration. */
    method RefreshRecord()
      modifies this`spfRecord
      ensures spfRecord == Record(config)
    {
      spfRecord := GenerateRecord(config);
    }

    /** `handleChange(field, value)`, followed by the effect it triggers. */
    method HandleChange(f: Field, value: string)
      modifies this
      ensures config == old(config).With(f, value)
      ensures spfRecord == Record(config)
    {
      config := config.With(f, value);
      RefreshRecord();
    }

    /** `resetForm`: the default configuration and an empty record, which the effect leaves empty. */
    method ResetForm()
      modifies this
      ensures config == DefaultConfig && spfRecord == ""
      ensures spfRecord == Record(config)
    {
      config := DefaultConfig;
      spfRecord := "";
      RefreshRecord();
      DefaultRecord();
    }
  }
}
