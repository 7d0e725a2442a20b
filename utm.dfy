/**
 * The UTM URL builder (src/app/utmbuilder/UTMBuilder.tsx): the campaign
 * parameters, the effect that builds the final link from them, and the
 * input and clear handlers.
 */
module Utm {
  import opened Options
  import opened Text
  import opened FormUrlEncoding

  /** `UTMParams`: the base URL and the five campaign fields. */
  datatype Params = Params(url: string, source: string, medium: string, campaign: string, term: string, content: string)
  {
    /** The input named `f`. */
    function Get(f: Field): string
    {
      match f
      case Url => url
      case Source => source
      case Medium => medium
      case Campaign => campaign
      case Term => term
      case Content => content
    }

    /** `{ ...prev, [name]: value }`: the input named `f` replaced, every other kept. */
    function With(f: Field, value: string): (p: Params)
      ensures p.Get(f) == value
      ensures forall g :: g != f ==> p.Get(g) == Get(g)
    {
      match f
      case Url => this.(url := value)
      case Source => this.(source := value)
      case Medium => this.(medium := value)
      case Campaign => this.(campaign := value)
      case Term => this.(term := value)
      case Content => this.(content := value)
    }
  }

  /** The `name` attributes of the six inputs. */
  datatype Field = Url | Source | Medium | Campaign | Term | Content

  /** The form as first shown and as `clearForm` leaves it. */
  const EmptyParams := Params("", "", "", "", "", "")

  /** The query keys, in the order the effect lists them. */
  const Keys: seq<string> := ["utm_source", "utm_medium", "utm_campaign", "utm_term", "utm_content"]

  /** The campaign field behind `Keys[k]`. */
  function Value(p: Params, k: nat): string
    requires k < 5
  {
    if k == 0 then p.source else if k == 1 then p.medium else if k == 2 then p.campaign
    else if k == 3 then p.term else p.content
  }

  /** `...(v && { key: v })`: one entry for a non-empty field, none for an empty one. */
  function Entry(key: string, v: string): seq<(string, string)>
  {
    if v != "" then [(key, v)] else []
  }

  /** The object handed to `URLSearchParams`, as its list of entries. */
  function Pairs(p: Params): seq<(string, string)>
  {
    Entry(Keys[0], p.source) + Entry(Keys[1], p.medium) + Entry(Keys[2], p.campaign)
      + Entry(Keys[3], p.term) + Entry(Keys[4], p.content)
  }

  /** One entry as `toString` writes it: encoded name, `=`, encoded value. */
  function SerializePair(kv: (string, string)): string
  {
    Encode(kv.0) + "=" + Encode(kv.1)
  }

  function SerializePairs(pairs: seq<(string, string)>): (r: seq<string>)
    ensures |r| == |pairs|
    ensures forall i :: 0 <= i < |r| ==> r[i] == SerializePair(pairs[i])
  {
    if |pairs| == 0 then [] else [SerializePair(pairs[0])] + SerializePairs(pairs[1..])
  }

  /** `new URLSearchParams(entries).toString()`. */
  function Query(pairs: seq<(string, string)>): string
  {
    Join(SerializePairs(pairs), "&")
  }

  /** The link the effect builds: the bare query without a URL, else URL, `?` or `&`, query. */
  function BuildUrl(p: Params): string
  {
    var q := Query(Pairs(p));
    if p.url != "" then p.url + (if Includes(p.url, "?") then "&" else "?") + q else q
  }

  // ---------------------------------------------------------------- the parser, as a partner

  /** One `&`-separated piece parsed: the name before the first `=`, the value after it. */
  function ParsePair(piece: string): Option<(string, string)>
  {
    var i := IndexOf(piece, '=');
    var name := if i == -1 then piece else piece[..i];
    var value := if i == -1 then "" else piece[i + 1..];
    match (Decode(name), Decode(value))
    case (Some(n), Some(v)) => Some((n, v))
    case _ => None
  }

  /** The pieces parsed in order, empty pieces skipped. */
  function ParsePieces(pieces: seq<string>): Option<seq<(string, string)>>
  {
    if |pieces| == 0 then Some([])
    else if pieces[0] == "" then ParsePieces(pieces[1..])
    else match (ParsePair(pieces[0]), ParsePieces(pieces[1..]))
      case (Some(kv), Some(rest)) => Some([kv] + rest)
      case _ => None
  }

  /** The application/x-www-form-urlencoded parser over a query string. */
  function ParseQuery(q: string): Option<seq<(string, string)>>
  {
    ParsePieces(Split(q, '&'))
  }

  // ---------------------------------------------------------------- the entries

  /** The position of a key in the fixed order. */
  function Rank(key: string): int
  {
    if key == Keys[0] then 0 else if key == Keys[1] then 1 else if key == Keys[2] then 2
    else if key == Keys[3] then 3 else if key == Keys[4] then 4 else -1
  }

  lemma KeysRanked()
    ensures forall k :: 0 <= k < 5 ==> Rank(Keys[k]) == k
  {
    assert Keys[0] != Keys[1] && Keys[0] != Keys[2] && Keys[0] != Keys[3] && Keys[0] != Keys[4] by {
      assert Keys[0][4] == 's' && Keys[1][4] == 'm' && Keys[2][4] == 'c' && Keys[3][4] == 't' && Keys[4][4] == 'c';
    }
    assert Keys[1] != Keys[2] && Keys[1] != Keys[3] && Keys[1] != Keys[4];
    assert Keys[2] != Keys[3] && Keys[2] != Keys[4] by {
      assert Keys[2][5] == 'a' && Keys[4][5] == 'o';
    }
    assert Keys[3] != Keys[4];
  }

  /**
   * An entry for `Keys[k]` appears exactly when its field is non-empty, it
   * carries that field's value, and no other entry appears.
   */
  lemma PairsMembers(p: Params)
    ensures forall k :: 0 <= k < 5 ==> ((Keys[k], Value(p, k)) in Pairs(p) <==> Value(p, k) != "")
    ensures forall kv :: kv in Pairs(p) ==> exists k :: 0 <= k < 5 && kv == (Keys[k], Value(p, k)) && Value(p, k) != ""
  {
    var ps := Pairs(p);
    forall k | 0 <= k < 5
      ensures (Keys[k], Value(p, k)) in ps <==> Value(p, k) != ""
    {
      KeysRanked();
      if (Keys[k], Value(p, k)) in ps {
        var kv := (Keys[k], Value(p, k));
        assert kv in Entry(Keys[0], p.source) || kv in Entry(Keys[1], p.medium) || kv in Entry(Keys[2], p.campaign)
          || kv in Entry(Keys[3], p.term) || kv in Entry(Keys[4], p.content);
      }
    }
    forall kv | kv in ps
      ensures exists k :: 0 <= k < 5 && kv == (Keys[k], Value(p, k)) && Value(p, k) != ""
    {
      if kv in Entry(Keys[0], p.source) { assert kv == (Keys[0], Value(p, 0)); }
      else if kv in Entry(Keys[1], p.medium) { assert kv == (Keys[1], Value(p, 1)); }
      else if kv in Entry(Keys[2], p.campaign) { assert kv == (Keys[2], Value(p, 2)); }
      else if kv in Entry(Keys[3], p.term) { assert kv == (Keys[3], Value(p, 3)); }
      else { assert kv in Entry(Keys[4], p.content); assert kv == (Keys[4], Value(p, 4)); }
    }
  }

  /** The entries come in the fixed order source, medium, campaign, term, content. */
  lemma PairsOrdered(p: Params)
    ensures forall i, j :: 0 <= i < j < |Pairs(p)| ==> 0 <= Rank(Pairs(p)[i].0) < Rank(Pairs(p)[j].0)
  {
    KeysRanked();
    var e0, e1, e2, e3, e4 := Entry(Keys[0], p.source), Entry(Keys[1], p.medium), Entry(Keys[2], p.campaign),
      Entry(Keys[3], p.term), Entry(Keys[4], p.content);
    var ranks := RankList(e0, 0) + RankList(e1, 1) + RankList(e2, 2) + RankList(e3, 3) + RankList(e4, 4);
    var ps := Pairs(p);
    assert |ranks| == |ps|;
    forall i | 0 <= i < |ps| ensures Rank(ps[i].0) == ranks[i] {
      assert ps == e0 + e1 + e2 + e3 + e4;
    }
  }

  /** The ranks of an entry list for key `Keys[k]`: `k` once per entry. */
  function RankList(e: seq<(string, string)>, k: nat): (r: seq<int>)
    ensures |r| == |e|
  {
    seq(|e|, _ => k)
  }

  // ---------------------------------------------------------------- the query string

  /** No serialized entry holds `&`, and each holds `=`. */
  lemma SerializedShape(pairs: seq<(string, string)>)
    ensures forall i :: 0 <= i < |pairs| ==> '&' !in SerializePair(pairs[i]) && '=' in SerializePair(pairs[i])
  {
    forall i | 0 <= i < |pairs|
      ensures '&' !in SerializePair(pairs[i]) && '=' in SerializePair(pairs[i])
    {
      var a, b := Encode(pairs[i].0), Encode(pairs[i].1);
      EncodeAlphabet(pairs[i].0);
      EncodeAlphabet(pairs[i].1);
      assert SerializePair(pairs[i])[|a|] == '=';
    }
  }

  /** Splitting the query at `&` gives back the serialized entries, one piece each. */
  lemma QuerySplit(pairs: seq<(string, string)>)
    requires |pairs| >= 1
    ensures Split(Query(pairs), '&') == SerializePairs(pairs)
  {
    SerializedShape(pairs);
    var sp := SerializePairs(pairs);
    assert forall i :: 0 <= i < |sp| ==> '&' !in sp[i];
    SplitJoin(sp, '&');
  }

  /** The parser reads one serialized entry back. */
  lemma ParseSerializedPair(kv: (string, string))
    ensures ParsePair(SerializePair(kv)) == Some(kv)
  {
    var a, b := Encode(kv.0), Encode(kv.1);
    var piece := a + "=" + b;
    EncodeAlphabet(kv.0);
    assert piece[..|a|] == a && piece[|a|] == '=';
    IndexOfAt(piece, '=', |a|);
    assert piece[|a| + 1..] == b;
    DecodeEncode(kv.0);
    DecodeEncode(kv.1);
  }

  lemma {:induction false} ParseSerializedPairs(pairs: seq<(string, string)>)
    ensures ParsePieces(SerializePairs(pairs)) == Some(pairs)
  {
    if |pairs| > 0 {
      var sp := SerializePairs(pairs);
      SerializedShape(pairs);
      assert sp[0] != "";
      assert sp[1..] == SerializePairs(pairs[1..]);
      ParseSerializedPair(pairs[0]);
      ParseSerializedPairs(pairs[1..]);
      assert [pairs[0]] + pairs[1..] == pairs;
    }
  }

  /** Parsing the query string gives back exactly the entries, in order. */
  lemma QueryRoundTrip(pairs: seq<(string, string)>)
    ensures ParseQuery(Query(pairs)) == Some(pairs)
  {
    if |pairs| == 0 {
      assert Query(pairs) == "";
    } else {
      QuerySplit(pairs);
      ParseSerializedPairs(pairs);
    }
  }

  /** A serialized entry never holds `?`. */
  lemma PairNoQuestion(kv: (string, string))
    ensures '?' !in SerializePair(kv)
  {
    EncodeAlphabet(kv.0);
    EncodeAlphabet(kv.1);
  }

  /** A query string never holds `?`, since the encoder never writes one. */
  lemma QueryNoQuestion(pairs: seq<(string, string)>)
    ensures '?' !in Query(pairs)
  {
    var sp := SerializePairs(pairs);
    forall i | 0 <= i < |sp| ensures '?' !in sp[i] {
      PairNoQuestion(pairs[i]);
    }
    JoinFree(sp, "&", '?');
  }

  /** A join of parts free of `c` with a separator free of `c` is free of `c`. */
  lemma {:induction false} JoinFree(parts: seq<string>, sep: string, c: char)
    requires c !in sep
    requires forall i :: 0 <= i < |parts| ==> c !in parts[i]
    ensures c !in Join(parts, sep)
  {
    if |parts| > 1 {
      JoinFree(parts[1..], sep, c);
    }
  }

  // ---------------------------------------------------------------- the link

  /** A URL that already has a query gets the new entries after `&`. */
  lemma AppendsToQuery(p: Params)
    requires p.url != "" && '?' in p.url
    ensures BuildUrl(p) == p.url + "&" + Query(Pairs(p))
  {
    IncludesChar(p.url, '?');
  }

  /** A URL without a query gets one started with `?`. */
  lemma StartsQuery(p: Params)
    requires p.url != "" && '?' !in p.url
    ensures BuildUrl(p) == p.url + "?" + Query(Pairs(p))
  {
    IncludesChar(p.url, '?');
  }

  /** Without a URL the link is the bare query string, with no separator. */
  lemma BareQuery(p: Params)
    requires p.url == ""
    ensures BuildUrl(p) == Query(Pairs(p))
  {
  }

  /** With every campaign field empty the link is the URL and a dangling `?` or `&`. */
  lemma DanglingSeparator(p: Params)
    requires p.url != ""
    requires p.source == "" && p.medium == "" && p.campaign == "" && p.term == "" && p.content == ""
    ensures BuildUrl(p) == p.url + (if '?' in p.url then "&" else "?")
  {
    assert Pairs(p) == [];
    IncludesChar(p.url, '?');
  }

  /** The cleared form builds the empty link. */
  lemma EmptyLink()
    ensures BuildUrl(EmptyParams) == ""
  {
    assert Pairs(EmptyParams) == [];
  }

  /**
   * For a URL without `?`, the link splits at its first `?` into the URL
   * and a query string that parses back to exactly the entries.
   */
  lemma LinkRoundTrip(p: Params)
    requires p.url != "" && '?' !in p.url
    ensures IndexOf(BuildUrl(p), '?') == |p.url|
    ensures BuildUrl(p)[..|p.url|] == p.url
    ensures ParseQuery(BuildUrl(p)[|p.url| + 1..]) == Some(Pairs(p))
  {
    StartsQuery(p);
    var q := Query(Pairs(p));
    var link := p.url + "?" + q;
    assert link[..|p.url|] == p.url && link[|p.url|] == '?';
    IndexOfAt(link, '?', |p.url|);
    assert link[|p.url| + 1..] == q;
    QueryRoundTrip(Pairs(p));
  }

  /** Two entries make a query of two serialized entries around one `&`. */
  lemma QueryTwo(a: (string, string), b: (string, string))
    ensures Query([a, b]) == SerializePair(a) + "&" + SerializePair(b)
  {
    var sp := SerializePairs([a, b]);
    assert sp == [SerializePair(a), SerializePair(b)] && sp[1..] == [SerializePair(b)];
    assert Join(sp, "&") == sp[0] + "&" + Join(sp[1..], "&");
  }

  /** The link for a URL without `?` and only the source and medium filled in. */
  lemma SourceMediumLink(p: Params)
    requires p.url != "" && '?' !in p.url && p.source != "" && p.medium != ""
    requires p.campaign == "" && p.term == "" && p.content == ""
    ensures BuildUrl(p) == p.url + "?" + (SerializePair((Keys[0], p.source)) + "&" + SerializePair((Keys[1], p.medium)))
  {
    assert Pairs(p) == [(Keys[0], p.source), (Keys[1], p.medium)];
    QueryTwo((Keys[0], p.source), (Keys[1], p.medium));
    StartsQuery(p);
  }

  /**
   * A link with only a source and a medium whose characters need no escaping
   * (such as `https://example.com`, `google` and `cpc`) carries them verbatim:
   * `https://example.com?utm_source=google&utm_medium=cpc`.
   */
  lemma PlainSourceMediumLink(p: Params)
    requires p.url != "" && '?' !in p.url && p.source != "" && p.medium != ""
    requires p.campaign == "" && p.term == "" && p.content == ""
    requires forall i :: 0 <= i < |p.source| ==> IsSafeChar(p.source[i])
    requires forall i :: 0 <= i < |p.medium| ==> IsSafeChar(p.medium[i])
    ensures BuildUrl(p) == p.url + "?" + (Keys[0] + "=" + p.source + "&" + (Keys[1] + "=" + p.medium))
  {
    SafeKey(0);
    SafeKey(1);
    PlainPair(Keys[0], p.source);
    PlainPair(Keys[1], p.medium);
    SourceMediumLink(p);
  }

  /** An entry whose name and value need no escaping is written as `name=value`. */
  lemma PlainPair(k: string, v: string)
    requires Encode(k) == k
    requires forall i :: 0 <= i < |v| ==> IsSafeChar(v[i])
    ensures SerializePair((k, v)) == k + "=" + v
  {
    EncodeSafe(v);
  }

  /** Every key is its own encoding. */
  lemma SafeKey(k: nat)
    requires k < |Keys|
    ensures Encode(Keys[k]) == Keys[k]
  {
    var key := Keys[k];
    assert forall i :: 0 <= i < |key| ==> IsSafeChar(key[i]);
    EncodeSafe(key);
  }

  // ---------------------------------------------------------------- the component state

  /** The component's state: the form and the link shown for it. */
  class UtmBuilder {
    var params: Params
    var builtUrl: string

    constructor ()
      ensures params == EmptyParams && builtUrl == ""
      ensures builtUrl == BuildUrl(params)
    {
      params := EmptyParams;
      builtUrl := "";
      EmptyLink();
    }

    /** The effect on `[params]`: the link is rebuilt from the form. */
    method Refresh()
      modifies this`builtUrl
      ensures builtUrl == BuildUrl(params)
    {
      builtUrl := BuildUrl(params);
    }

    /** `handleInputChange`: the input named `f` takes `value`, then the effect runs. */
    method HandleInputChange(f: Field, value: string)
      modifies this
      ensures params == old(params).With(f, value)
      ensures params.Get(f) == value && forall g :: g != f ==> params.Get(g) == old(params).Get(g)
      ensures builtUrl == BuildUrl(params)
    {
      params := params.With(f, value);
      Refresh();
    }

    /** `clearForm`: all six fields and the link become empty. */
    method ClearForm()
      modifies this
      ensures params == EmptyParams && builtUrl == ""
      ensures builtUrl == BuildUrl(params)
    {
      params := EmptyParams;
      builtUrl := "";
      EmptyLink();
    }
  }
}
