# Hosting-plan recommender, SPF record generator and UTM link builder

A Dafny model of the three interactive widgets of the StableCluster web
site, and proofs of what each one computes.

- **The hosting-plan recommender** (`src/app/page.tsx`, module `Plans`).
  - The mount effect collects the distinct plan-tag names of the catalog,
    in order of first appearance, for the project-type menu.
  - `getProjectType` maps a tag name to a menu label by testing six
    substrings in order.
  - `handleSubmit` works in three steps:
    1. it keeps the plans carrying the selected tag;
    2. it sorts them in place by price;
    3. it picks at most one of them from the traffic and budget bucket
       labels.

  `Home` is the component's state as a class. Its methods are the effect,
  the three select handlers, the submit handler and `resetForm`.
- **The SPF record generator**, in two copies.
  - The shared configuration, the domain check and the record as a list
    of terms are in module `SpfRecord`.
  - Module `SpfMaker` holds the `useSPFMaker` hook
    (`src/app/spfmaker/spfmaker.tsx`).
  - Module `SpfForm` holds the `SPFMaker` component
    (`src/app/spfmaker/form.tsx`).
  - Each copy is a class holding the configuration and the record on
    display, plus a method that builds the record with `+=`, as the
    effect does. The method is proved equal to the specification function
    `Record`, and the properties of the record are proved about `Record`:
    - the record is empty exactly for a refused domain;
    - it starts with `v=spf1` and ends with the `all` term;
    - it splits on spaces into its terms;
    - `mx` appears exactly when allowed, and `a` appears as many times as
      it was allowed;
    - one list term comes per non-blank piece of a list field, in input
      order;
    - the example `example.com` record is `v=spf1 mx ip4:10.0.0.1/32 -all`.
- **The UTM link builder** (`src/app/utmbuilder/UTMBuilder.tsx`, modules
  `Utm` and `FormUrlEncoding`).
  - `URLSearchParams(...).toString()` is modelled by the
    application/x-www-form-urlencoded serializer of section 5.2 of the
    WHATWG URL Standard: UTF-8, then `+` for a space, the bytes
    `*-._`, digits and ASCII letters as they are, and `%XX` for any other
    byte.
  - Its partner is the matching parser of section 5.1 and a strict UTF-8
    decoder. `Utm.QueryRoundTrip` and `FormUrlEncoding.DecodeEncode`
    prove that the query parses back to exactly the entries put in.
  - `UtmBuilder` is the component's state. The URL-building effect is
    modelled as running right after each handler, so `builtUrl` is always
    `BuildUrl(params)`.

Supporting modules:

- `Text` holds the JavaScript string operations the widgets use, with
  their JavaScript semantics: `split` on one character, `join`, `trim`
  with ECMAScript's white-space set, `includes`, `indexOf`, and `replace`
  with a one-character pattern.
- `JsParseInt` holds `parseInt` with no radix: leading white space, a
  sign, a `0x` prefix, the longest digit run, and NaN (`JsNumber.NaN`)
  when there is no digit. All comparisons with NaN are false.

In two places `handleSubmit` computes something other than what its own
names and tables announce, and the model follows what it computes.

- **The traffic bound is the first piece.** The variable is named
  `trafficMax`, but `const [trafficMax] = ...split("-")...` keeps the first
  piece of the label. So the value compared with the budget's upper bound
  is the traffic bucket's *lower* bound (1000, 6000, 11000 or 21000), not
  its upper bound.
- **The budget lower bounds are 250, 1, 3 and 7.** The `budgets` table's
  `min` column says 250, 1900, 3900 and 7900. But `parseInt("1.9000")` is
  1, so the parsed lower bounds are 250, 1, 3 and 7
  (`Plans.BudgetBounds`).
  - No traffic lower bound equals a budget upper bound. So for every label
    pair the form offers, the `find` branch that uses the lower bound is
    never reached (`Plans.TableRecommendation`).
  - A bucket label outside the tables gets no error check. It is parsed
    like any other string, and a NaN bound makes both comparisons false.

## Model

| member | source | states |
|---|---|---|
| Plans.GetProjectType | src/app/page.tsx:197-205 | `getProjectType`: the six `includes` tests in source order with their labels, and `null` (`None`) when none holds; its meaning is stated by `GetProjectTypeTable`, `GetProjectTypeFirstMatch` and `GetProjectTypeNone` |
| Plans.GetProjectTypeTable | src/app/page.tsx:197-205 | `getProjectType` is the table of six (substring, label) pairs read from the top: the label of the first substring the tag name contains |
| Plans.LabelsDistinct | src/app/page.tsx:197-205 | no two project types share a label |
| Plans.GetProjectTypeFirstMatch | src/app/page.tsx:197-205 | label k is returned if and only if substring k occurs in the tag name and none of the earlier five does |
| Plans.GetProjectTypeNone | src/app/page.tsx:197-205 | `null` is returned if and only if none of the six substrings occurs |
| Plans.Dedup | src/app/page.tsx:107-113 | `Array.from(plansSet)`: the names in insertion order with later repeats dropped; characterised by `DedupFirstAppearance` |
| Plans.DedupFirstAppearance | src/app/page.tsx:107-113 | the names read back from the `Set` are exactly the catalog's tag names, each once, ordered by first appearance |
| Plans.CollectUniquePlans | src/app/page.tsx:107-113 | the nested `forEach` loops that fill the `Set` yield the catalog's tag names without repeats, in insertion order |
| Plans.FilterByTag | src/app/page.tsx:150-154 | each plan occurs in the filtered list as often as in the catalog when it carries the tag, and not at all otherwise |
| Plans.FilterByTagMembers | src/app/page.tsx:150-154 | a plan is a candidate if and only if it is in the catalog and carries the selected tag |
| Plans.SortByPrice | src/app/page.tsx:156-158 | the in-place sort leaves the array ascending by price and a permutation of what it held |
| Plans.SelectCandidates | src/app/page.tsx:150-158 | the candidates are sorted by price and are a permutation of the filtered catalog |
| Plans.At | src/app/page.tsx:173-176 | indexing yields a plan exactly for an index inside the list, `undefined` otherwise |
| Plans.FirstWithinBudget | src/app/page.tsx:178-182 | `find` stops at a plan priced inside [budgetMin, budgetMax], and every plan before it, or every plan if none is found, is outside |
| Plans.Recommend | src/app/page.tsx:160-184 | the recommendation is one of the candidates, and none for an empty candidate list |
| Plans.Choose | src/app/page.tsx:165-183 | after the bounds are parsed, the choice is one of the candidates, and none for an empty list |
| Plans.AsList | src/app/page.tsx:186 | `recommendedPlans` holds the recommended plan alone, or is empty exactly when there is none |
| Plans.LowestBucketsPickCheapest | src/app/page.tsx:162-163 | for `1k-5k` and `250-2k` the first candidate is recommended, and no candidate is cheaper |
| Plans.TrafficAbovePicksDearest | src/app/page.tsx:172-173 | when the traffic bound exceeds the budget upper bound, the last candidate is recommended, and no candidate costs more |
| Plans.ChooseDearest | src/app/page.tsx:172-173 | the same rule over already-parsed bounds |
| Plans.BudgetAbovePicksMiddle | src/app/page.tsx:174-176 | when the budget upper bound exceeds the traffic bound, the candidate at floor(n/2) is recommended, no dearer than those after it and no cheaper than those before it |
| Plans.ChooseMiddle | src/app/page.tsx:174-176 | the same rule over already-parsed bounds |
| Plans.EqualBoundsPickFirstWithinBudget | src/app/page.tsx:177-183 | when neither bound exceeds the other, including when one is NaN: nothing is recommended exactly when no candidate is within budget, and otherwise the first one within budget is |
| Plans.ChooseFirstWithinBudget | src/app/page.tsx:177-183 | the same rule over already-parsed bounds |
| Plans.BucketBound | src/app/page.tsx:165-170 | piece k of `label.split("-").map(v => parseInt(v.replace("k", "000")))`, NaN for a missing piece; its values for the tables are stated by `TrafficBounds` and `BudgetBounds` |
| Plans.SplitRange | src/app/page.tsx:165-166 | a label `lo-hi` splits on `-` into exactly its two halves |
| Plans.KiloPiece | src/app/page.tsx:167 | a piece `<digits>k` becomes `<digits>000` and is read as that many thousands |
| Plans.FractionalKiloPiece | src/app/page.tsx:167 | a piece `<digits>.<digits>k` is read as its integer part only |
| Plans.PlainPiece | src/app/page.tsx:167 | a piece of plain digits is read as its value |
| Plans.KiloRange | src/app/page.tsx:165-170 | a label `<lo>k-<hi>k` has the bounds lo and hi thousand |
| Plans.FractionalKiloRange | src/app/page.tsx:165-170 | a label `<lo>.<f>k-<hi>k` has the bounds lo and hi thousand |
| Plans.PlainKiloRange | src/app/page.tsx:165-170 | a label `<lo>-<hi>k` has the bounds lo and hi thousand |
| Plans.TrafficBounds | src/app/page.tsx:80-85 | both pieces of every traffic label parse to that row's min and max |
| Plans.BudgetBounds | src/app/page.tsx:73-78 | the second piece of every budget label parses to the row's max; the first piece parses to 250, 1, 3 and 7, which equals the row's min only for the first row |
| Plans.LowestLabels | src/app/page.tsx:162 | rule 1's labels are those of the first row of each table and of no other row |
| Plans.BoundsNeverTie | src/app/page.tsx:73-85 | no traffic lower bound equals a budget upper bound |
| Plans.RecommendByBounds | src/app/page.tsx:172-176 | outside rule 1, with two distinct numeric bounds, the last candidate is chosen when traffic is higher and the middle one otherwise |
| Plans.ChooseByBounds | src/app/page.tsx:172-176 | the same over already-parsed bounds |
| Plans.TableRecommendation | src/app/page.tsx:160-184 | for every traffic and budget row and any non-empty candidate list, the result is the first candidate for the two lowest rows, the last when the traffic bound exceeds the budget max, and the middle one otherwise |
| Plans.Home.constructor | src/app/page.tsx:65-70 | the menu, the selections and the recommendation start empty |
| Plans.Home.LoadPlans | src/app/page.tsx:107-113 | the menu entries become the distinct tag names of the catalog, in order of first appearance |
| Plans.Home.SelectPlan | src/app/page.tsx:253 | the project-type selection takes the chosen value |
| Plans.Home.SelectTraffic | src/app/page.tsx:286 | the traffic selection takes the chosen value |
| Plans.Home.SelectBudget | src/app/page.tsx:315 | the budget selection takes the chosen value |
| Plans.Home.HandleSubmit | src/app/page.tsx:150-186 | the candidates are the filtered catalog sorted by price; `recommendedPlans` is the recommendation for the current selections, holds at most one plan, and that plan is in the catalog and carries the selected tag |
| Plans.Home.ResetForm | src/app/page.tsx:87-92 | the three selections are cleared |
| Text.Split | src/app/spfmaker/spfmaker.tsx:38 | `split(" ")` gives at least one piece and no piece holds the separator; `SplitJoin` and `JoinSplit` relate it to `join` |
| Text.Includes | src/app/page.tsx:198-203 | `includes`: the pattern is a prefix of some suffix; `IncludesChar` states the one-character case |
| Text.ReplaceFirst | src/app/page.tsx:167 | `replace("k", "000")` with a string pattern: only the first `k`, found by `indexOf`, is replaced; `KiloSuffix` states the case the labels use |
| Text.SplitJoin | src/app/spfmaker/spfmaker.tsx:38 | splitting undoes joining when no part holds the separator |
| Text.JoinSplit | src/app/spfmaker/spfmaker.tsx:38 | joining the pieces of `split` gives back the string |
| Text.Trim | src/app/spfmaker/spfmaker.tsx:40 | `trim` gives the slice of the string left after its leading white space, with no white space at either end |
| Text.TrimBlank | src/app/spfmaker/spfmaker.tsx:40 | `trim` gives the empty string if and only if the string is white space only |
| Text.IncludesChar | src/app/utmbuilder/UTMBuilder.tsx:45 | `includes` of a one-character string is membership of that character |
| Text.IndexOf | src/app/page.tsx:167 | `indexOf` is -1 exactly when the character is absent, and otherwise the position of its first occurrence |
| JsParseInt.ParseInt | src/app/page.tsx:167 | `parseInt` without a radix: white space, sign, `0x` prefix, longest digit run, NaN for none; its readings are stated by `ParseDigitRun` and `ParseDecimalPrefix` |
| JsParseInt.ParseDigitRun | src/app/page.tsx:167 | `parseInt` of a digit run followed by a non-digit, non-`x` character, or by nothing, is the run's value |
| JsParseInt.ParseDecimalPrefix | src/app/page.tsx:167 | `parseInt` of a number's decimal spelling, followed by such a character or by nothing, is that number |
| SpfRecord.Config.With | src/app/spfmaker/spfmaker.tsx:63-65 | `{ ...prev, [field]: value }` changes the named field and no other |
| SpfRecord.IsValidDomain | src/app/spfmaker/spfmaker.tsx:21 | the pattern `^label\.tld$` as a predicate: some dot splits the domain into a 3–63-character label and two or more letters; `CheckDomain` is proved equivalent to it |
| SpfRecord.CheckDomain | src/app/spfmaker/spfmaker.tsx:20-23 | the check accepts a domain if and only if it matches `label.tld` at some dot |
| SpfRecord.ValidDomainAtFirstDot | src/app/spfmaker/spfmaker.tsx:21 | when the pattern matches, it matches at the first dot |
| SpfRecord.ValidDomainOneDot | src/app/spfmaker/spfmaker.tsx:21 | an accepted domain holds exactly one dot |
| SpfRecord.ValidDomainOneDotFails | src/app/spfmaker/spfmaker.tsx:21 | a domain with two dots is refused |
| SpfRecord.RejectsShortLabel | src/app/spfmaker/spfmaker.tsx:21 | `ab.com` is refused: the first label needs three characters |
| SpfRecord.RejectsSubdomain | src/app/spfmaker/spfmaker.tsx:21 | `mail.example.com` is refused |
| SpfRecord.RejectsShortTld | src/app/spfmaker/spfmaker.tsx:21 | `example.c` is refused |
| SpfRecord.RejectsPhrase | src/app/spfmaker/spfmaker.tsx:21 | `not a domain` and the empty string are refused |
| SpfRecord.ExampleDomain | src/app/spfmaker/spfmaker.tsx:21 | `example.com` is accepted |
| SpfRecord.PieceTokensMembers | src/app/spfmaker/spfmaker.tsx:38-41 | a term comes from a list field if and only if it is the prefix followed by a trimmed, non-blank piece |
| SpfRecord.PieceTokensAppend | src/app/spfmaker/spfmaker.tsx:39-41 | the terms of two runs of pieces are those of the first run followed by those of the second: input order is kept |
| SpfRecord.PieceTokensShape | src/app/spfmaker/spfmaker.tsx:38-41 | every list term is longer than its prefix, starts with it, and holds no space |
| SpfRecord.ListTokensGuard | src/app/spfmaker/spfmaker.tsx:37-38 | the `if (field)` guard changes nothing: an empty field contributes no terms either way |
| SpfRecord.ListTokensShape | src/app/spfmaker/spfmaker.tsx:37-56 | the terms of each list start with its prefix, are longer than it, and hold no space |
| SpfRecord.FlagsShape | src/app/spfmaker/spfmaker.tsx:33-35 | the flag terms are `mx` or `a` |
| SpfRecord.ListsShape | src/app/spfmaker/spfmaker.tsx:37-56 | the terms of the three lists are space-free terms of three characters or more |
| SpfRecord.TokensShape | src/app/spfmaker/spfmaker.tsx:31-58 | every term of the record is non-empty and holds no space |
| SpfRecord.FlagTokensCount | src/app/spfmaker/spfmaker.tsx:33-35 | `mx` is among the flag terms exactly when allowed, and `a` occurs once per allowed `a` flag |
| SpfRecord.FlagTerms | src/app/spfmaker/spfmaker.tsx:33-35 | the record holds `mx` if and only if allowMX is `yes`, and as many `a` terms as there are `yes` answers among allowIP and allowHostname |
| SpfRecord.Tokens | src/app/spfmaker/spfmaker.tsx:31-58 | the record's terms: version, flags, the three lists and the `all` term; their shape is stated by `TokensShape`, `FlagTerms` and `PieceTokensMembers` |
| SpfRecord.Record | src/app/spfmaker/spfmaker.tsx:25-61 | the record the effect sets: empty for a refused domain, else the terms joined by spaces; both copies' `GenerateRecord` are proved equal to it, and `RecordEmpty`, `RecordEnds`, `RecordSplit` and `RecordTerms` state its properties |
| SpfRecord.RecordEmpty | src/app/spfmaker/spfmaker.tsx:26-29 | the record is empty if and only if the domain is refused |
| SpfRecord.RecordEnds | src/app/spfmaker/spfmaker.tsx:31-58 | for an accepted domain the record starts with `v=spf1` and ends with the `all` term of the chosen strictness |
| SpfRecord.RecordSplit | src/app/spfmaker/spfmaker.tsx:31-58 | for an accepted domain, splitting the record on spaces gives back its terms |
| SpfRecord.SingleWordList | src/app/spfmaker/spfmaker.tsx:37-42 | a field holding one word with no white space contributes exactly one term |
| SpfRecord.ExampleAddress | src/app/spfmaker/spfmaker.tsx:37-42 | the field `10.0.0.1/32` gives the single term `ip4:10.0.0.1/32` |
| SpfRecord.ExampleTokens | src/app/spfmaker/spfmaker.tsx:25-61 | the terms for `example.com` with MX allowed, `10.0.0.1/32` and Strict are `v=spf1`, `mx`, `ip4:10.0.0.1/32` and `-all` |
| SpfRecord.ExampleRecord | src/app/spfmaker/spfmaker.tsx:25-61 | that configuration gives exactly `v=spf1 mx ip4:10.0.0.1/32 -all` |
| SpfRecord.DefaultRecord | src/app/spfmaker/spfmaker.tsx:7-16 | the initial configuration gives the empty record |
| SpfRecord.StartRecord | src/app/spfmaker/spfmaker.tsx:31-35 | `v=spf1` followed by the flag `+=` steps is the join of the version and flag terms |
| SpfRecord.AppendList | src/app/spfmaker/spfmaker.tsx:37-42 | a guarded `split`/`forEach` block appends, space-separated, exactly that list's terms |
| SpfRecord.AppendPieces | src/app/spfmaker/spfmaker.tsx:39-41 | the `forEach` over the pieces appends, space-separated, exactly their terms |
| SpfRecord.CloseRecord | src/app/spfmaker/spfmaker.tsx:58 | the strictness suffix `-all`, `?all` or `~all` appends the `all` term |
| SpfRecord.RecordTerms | src/app/spfmaker/spfmaker.tsx:31-58 | for an accepted domain, the record split on spaces is `v=spf1`, the allowed flags, the `ip4:`, `a:` and `include:` terms in input order, then the `all` term |
| SpfMaker.GenerateRecord | src/app/spfmaker/spfmaker.tsx:25-61 | the record the effect builds is `Record(config)` |
| SpfMaker.SpfMakerHook.constructor | src/app/spfmaker/spfmaker.tsx:7-17 | the hook starts at the default configuration with an empty record, which is that configuration's record |
| SpfMaker.SpfMakerHook.RefreshRecord | src/app/spfmaker/spfmaker.tsx:25-61 | the record on display becomes the configuration's record |
| SpfMaker.SpfMakerHook.HandleChange | src/app/spfmaker/spfmaker.tsx:63-65 | only the named field changes, and the record follows the new configuration |
| SpfMaker.SpfMakerHook.ResetForm | src/app/spfmaker/spfmaker.tsx:74-86 | the default configuration and an empty record are restored, consistent with each other |
| SpfForm.InitialIsDefault | src/app/spfmaker/form.tsx:35-44 | `initialConfig` is the same configuration the hook starts from, and its record is empty |
| SpfForm.GenerateRecord | src/app/spfmaker/form.tsx:50-95 | the second copy of the domain check and effect builds `Record(config)` too |
| SpfForm.SpfFormState.constructor | src/app/spfmaker/form.tsx:47-48 | the component starts at `initialConfig` with an empty record |
| SpfForm.SpfFormState.RefreshRecord | src/app/spfmaker/form.tsx:55-95 | the record on display becomes the configuration's record |
| SpfForm.SpfFormState.HandleChange | src/app/spfmaker/form.tsx:97-99 | only the named field changes, and the record follows |
| SpfForm.SpfFormState.HandleReset | src/app/spfmaker/form.tsx:110-113 | `initialConfig` and an empty record are restored |
| FormUrlEncoding.Utf8Char | src/app/utmbuilder/UTMBuilder.tsx:43 | a code point takes one to four bytes, and one byte exactly below 0x80 |
| FormUrlEncoding.DecodeFirstChar | src/app/utmbuilder/UTMBuilder.tsx:43 | the strict decoder reads back the first character of an encoding and its byte count, whatever follows |
| FormUrlEncoding.Utf8RoundTrip | src/app/utmbuilder/UTMBuilder.tsx:43 | UTF-8 decoding undoes UTF-8 encoding |
| FormUrlEncoding.Utf8Empty | src/app/utmbuilder/UTMBuilder.tsx:43 | only the empty string encodes to no bytes |
| FormUrlEncoding.SerializeByte | src/app/utmbuilder/UTMBuilder.tsx:43 | one byte becomes one to three characters from the serializer's alphabet |
| FormUrlEncoding.UnserializeByte | src/app/utmbuilder/UTMBuilder.tsx:43 | the parser reads a serialized byte back, whatever follows it |
| FormUrlEncoding.UnserializeSerialize | src/app/utmbuilder/UTMBuilder.tsx:43 | parsing undoes serializing for any byte string |
| FormUrlEncoding.Encode | src/app/utmbuilder/UTMBuilder.tsx:43 | the name or value as `URLSearchParams` writes it: UTF-8 bytes, serialized; `DecodeEncode` shows decoding gives it back |
| FormUrlEncoding.DecodeEncode | src/app/utmbuilder/UTMBuilder.tsx:43 | decoding an encoded name or value gives it back |
| FormUrlEncoding.EncodeAlphabet | src/app/utmbuilder/UTMBuilder.tsx:43 | an encoding uses only safe characters, `+` and `%`, and holds no `&`, `=`, `?` or space |
| FormUrlEncoding.EncodeEmpty | src/app/utmbuilder/UTMBuilder.tsx:43 | only the empty string encodes to the empty string |
| FormUrlEncoding.EncodeSafe | src/app/utmbuilder/UTMBuilder.tsx:43 | a string of safe characters is its own encoding |
| Utm.Params.With | src/app/utmbuilder/UTMBuilder.tsx:31-34 | `{ ...prev, [name]: value }` changes the named field and no other |
| Utm.KeysRanked | src/app/utmbuilder/UTMBuilder.tsx:38-42 | the five keys are distinct, in the object's key order |
| Utm.Pairs | src/app/utmbuilder/UTMBuilder.tsx:37-42 | the object spread into `URLSearchParams`, as its entry list; characterised by `PairsMembers` and `PairsOrdered` |
| Utm.Query | src/app/utmbuilder/UTMBuilder.tsx:37-43 | `toString()`: the serialized entries joined by `&`; `QueryRoundTrip` shows the parser reads the entries back |
| Utm.BuildUrl | src/app/utmbuilder/UTMBuilder.tsx:37-45 | the link the effect sets; its three cases are stated by `StartsQuery`, `AppendsToQuery` and `BareQuery`, and `LinkRoundTrip` recovers the URL and the entries |
| Utm.PairsMembers | src/app/utmbuilder/UTMBuilder.tsx:37-42 | a key is in the query object if and only if its field is non-empty, with that field's value, and nothing else is there |
| Utm.PairsOrdered | src/app/utmbuilder/UTMBuilder.tsx:37-42 | the entries keep the order source, medium, campaign, term, content |
| Utm.SerializedShape | src/app/utmbuilder/UTMBuilder.tsx:43 | a serialized entry is non-empty and holds no `&` |
| Utm.QuerySplit | src/app/utmbuilder/UTMBuilder.tsx:43 | the query splits on `&` into exactly the serialized entries |
| Utm.ParseSerializedPair | src/app/utmbuilder/UTMBuilder.tsx:43 | parsing a serialized entry gives back its name and value |
| Utm.ParseSerializedPairs | src/app/utmbuilder/UTMBuilder.tsx:43 | parsing the serialized entries gives back the entries |
| Utm.QueryRoundTrip | src/app/utmbuilder/UTMBuilder.tsx:37-43 | parsing the query string gives back exactly the entries, in order |
| Utm.PairNoQuestion | src/app/utmbuilder/UTMBuilder.tsx:43 | a serialized entry holds no `?` |
| Utm.QueryNoQuestion | src/app/utmbuilder/UTMBuilder.tsx:43 | the query string holds no `?` |
| Utm.StartsQuery | src/app/utmbuilder/UTMBuilder.tsx:45 | a URL without `?` is followed by `?` and the query |
| Utm.AppendsToQuery | src/app/utmbuilder/UTMBuilder.tsx:45 | a URL that has a `?` is followed by `&` and the query |
| Utm.BareQuery | src/app/utmbuilder/UTMBuilder.tsx:45 | without a URL the link is the bare query |
| Utm.DanglingSeparator | src/app/utmbuilder/UTMBuilder.tsx:45 | a URL with all UTM fields empty still gets a trailing `?` or `&` |
| Utm.EmptyLink | src/app/utmbuilder/UTMBuilder.tsx:36-47 | the empty form builds the empty link |
| Utm.LinkRoundTrip | src/app/utmbuilder/UTMBuilder.tsx:36-47 | for a URL without `?`, the link's first `?` follows the URL unchanged, and what comes after it parses back to the entries |
| Utm.QueryTwo | src/app/utmbuilder/UTMBuilder.tsx:43 | two entries are serialized as first `&` second |
| Utm.SourceMediumLink | src/app/utmbuilder/UTMBuilder.tsx:36-47 | with only a source and a medium, the link is URL `?utm_source=`encoded source`&utm_medium=`encoded medium |
| Utm.PlainPair | src/app/utmbuilder/UTMBuilder.tsx:43 | an entry whose name and value need no escaping is written `name=value` |
| Utm.SafeKey | src/app/utmbuilder/UTMBuilder.tsx:38-42 | every UTM key is its own encoding |
| Utm.PlainSourceMediumLink | src/app/utmbuilder/UTMBuilder.tsx:36-47 | such a link carries a source and medium that need no escaping verbatim, as in `https://example.com?utm_source=google&utm_medium=cpc` |
| Utm.UtmBuilder.constructor | src/app/utmbuilder/UTMBuilder.tsx:20-29 | all fields start empty and so does the link |
| Utm.UtmBuilder.Refresh | src/app/utmbuilder/UTMBuilder.tsx:36-47 | the link becomes the one built from the fields |
| Utm.UtmBuilder.HandleInputChange | src/app/utmbuilder/UTMBuilder.tsx:31-34 | only the named field changes, and the link follows the new fields |
| Utm.UtmBuilder.ClearForm | src/app/utmbuilder/UTMBuilder.tsx:70-80 | all fields and the link are cleared, consistent with each other |

## Left out

- The catalog requests (`fetch` with an `AbortController`, `response.json`, the GraphQL query text). The catalog arrives as a parameter of `Home.LoadPlans` and `Home.HandleSubmit`, and a failed request, which leaves the state unchanged, is not modelled.
- The `loading` and `submitted` flags of the home page. They only drive rendering.
- All rendering. That includes the menu's `filter(plan => plan !== null)` and the hiding of tag names that have no project type (`src/app/page.tsx:263-272`).
- Copying to the clipboard, the toast and alert messages, and the `copied` flag with its timer. They are side effects with no bearing on the computed values.
- Plans.SortByPrice: does not state that plans of equal price keep their catalog order. `Array.prototype.sort` is stable, so when prices tie the model determines the candidate list only up to a permutation.
- Prices are integers. The catalog's `price` is a JavaScript number, and fractional prices are not modelled.
- `parseInt` is modelled for the strings it receives here and returns unbounded integers. Precision loss above 2^53 and the explicit-radix form are not modelled.
- `handleInputChange` takes its field from the input's `name`. The model takes a `Field` value, so an input named outside the six fields, which would add a stray key, is not modelled.
- `useEffect` runs after rendering, not inside the handler. The model runs it at the end of each handler method, so the state between a change and its effect is not modelled.
- FormUrlEncoding.Decode: rejects malformed UTF-8 with `None` where the URL Standard's parser substitutes U+FFFD. The decoder serves only as the partner of the encoder, whose output is always well-formed.
- Strings are sequences of Unicode scalar values. JavaScript strings are UTF-16 and may hold lone surrogates, which `URLSearchParams` would replace with U+FFFD. These are not modelled.
