/**
 * The hosting-plan recommender of the home page (src/app/page.tsx): the
 * project-type menu built from the catalog's tag names, the label of each
 * project type, and the submit handler that filters the catalog by the
 * chosen tag, sorts it by price and picks at most one plan from the
 * traffic and budget buckets.
 */
module Plans {
  import opened Options
  import opened Text
  import opened JsParseInt

  /** A catalog entry (a `Hosting` node with its `hostingDetails` flattened); `tags` are its plan-node names. */
  datatype Plan = Plan(id: string, title: string, price: int, tags: seq<string>, link: string)

  /** A row of the `budgets` or `trafficflow` table. */
  datatype Bucket = Bucket(range: string, min: int, max: int)

  /** Monthly budget buckets, in NPR. */
  const Budgets: seq<Bucket> := [
    Bucket("250-2k", 250, 2000),
    Bucket("1.9k-4k", 1900, 4000),
    Bucket("3.9k-8k", 3900, 8000),
    Bucket("7.9k-16k", 7900, 16000)
  ]

  /** Traffic buckets, in visitors. */
  const TrafficFlow: seq<Bucket> := [
    Bucket("1k-5k", 1000, 5000),
    Bucket("6k-10k", 6000, 10000),
    Bucket("11k-20k", 11000, 20000),
    Bucket("21k-60k", 21000, 60000)
  ]

  // ---------------------------------------------------------------- project types

  /** The substring looked for and the label shown, in the order `getProjectType` checks them. */
  const ProjectTypes: seq<(string, string)> := [
    ("Woocommerce Hosting", "Woocommerce Store"),
    ("Ecommerce Hosting", "Ecommerce Platform"),
    ("Node Hosting", "Node.js App"),
    ("Business Email Hosting", "Business Website"),
    ("Python Hosting", "Django App"),
    ("Blog Hosting", "Blogging")
  ]

  /** `getProjectType`: the menu label of a plan tag name, or `null`. */
  function GetProjectType(plan: string): Option<string>
  {
    if Includes(plan, "Woocommerce Hosting") then Some("Woocommerce Store")
    else if Includes(plan, "Ecommerce Hosting") then Some("Ecommerce Platform")
    else if Includes(plan, "Node Hosting") then Some("Node.js App")
    else if Includes(plan, "Business Email Hosting") then Some("Business Website")
    else if Includes(plan, "Python Hosting") then Some("Django App")
    else if Includes(plan, "Blog Hosting") then Some("Blogging")
    else None
  }

  /** The table read from the top: the label of the first substring `plan` contains. */
  function FirstMatch(plan: string, table: seq<(string, string)>): (r: Option<string>)
    ensures r.Some? ==> exists i :: 0 <= i < |table| && r.value == table[i].1
  {
    if |table| == 0 then None
    else if Includes(plan, table[0].0) then Some(table[0].1)
    else
      var r := FirstMatch(plan, table[1..]);
      assert r.Some? ==> exists i :: 1 <= i < |table| && r.value == table[i].1 by {
        if r.Some? {
          var i :| 0 <= i < |table[1..]| && r.value == table[1..][i].1;
          assert table[1..][i] == table[i + 1];
        }
      }
      r
  }

  /** `getProjectType` is the table of project types read from the top. */
  lemma GetProjectTypeTable(plan: string)
    ensures GetProjectType(plan) == FirstMatch(plan, ProjectTypes)
  {
    var t := ProjectTypes;
    assert FirstMatch(plan, t[6..]) == None;
    assert t[5..][1..] == t[6..];
    assert FirstMatch(plan, t[5..]) == if Includes(plan, "Blog Hosting") then Some("Blogging") else None;
    assert t[4..][1..] == t[5..];
    assert FirstMatch(plan, t[4..]) == if Includes(plan, "Python Hosting") then Some("Django App") else FirstMatch(plan, t[5..]);
    assert t[3..][1..] == t[4..];
    assert FirstMatch(plan, t[3..]) == if Includes(plan, "Business Email Hosting") then Some("Business Website") else FirstMatch(plan, t[4..]);
    assert t[2..][1..] == t[3..];
    assert FirstMatch(plan, t[2..]) == if Includes(plan, "Node Hosting") then Some("Node.js App") else FirstMatch(plan, t[3..]);
    assert t[1..][1..] == t[2..];
    assert FirstMatch(plan, t[1..]) == if Includes(plan, "Ecommerce Hosting") then Some("Ecommerce Platform") else FirstMatch(plan, t[2..]);
  }

  /** The six labels differ: no two project types share a label. */
  lemma LabelsDistinct()
    ensures forall i, j :: 0 <= i < j < |ProjectTypes| ==> ProjectTypes[i].1 != ProjectTypes[j].1
  {
    var lengths := [17, 18, 11, 16, 10, 8];
    assert forall i :: 0 <= i < 6 ==> |ProjectTypes[i].1| == lengths[i];
  }

  /** With distinct labels, entry `k` is the answer exactly when its substring is the first one found. */
  lemma {:induction false} FirstMatchAt(plan: string, table: seq<(string, string)>, k: nat)
    requires k < |table|
    requires forall i, j :: 0 <= i < j < |table| ==> table[i].1 != table[j].1
    ensures FirstMatch(plan, table) == Some(table[k].1) <==>
      Includes(plan, table[k].0) && forall j :: 0 <= j < k ==> !Includes(plan, table[j].0)
  {
    var rest := table[1..];
    assert forall i :: 0 <= i < |rest| ==> rest[i] == table[i + 1];
    if Includes(plan, table[0].0) {
      if k > 0 { assert table[0].1 != table[k].1; }
    } else if k == 0 {
      var r := FirstMatch(plan, rest);
      if r.Some? {
        var i :| 0 <= i < |rest| && r.value == rest[i].1;
        assert table[0].1 != table[i + 1].1;
      }
    } else {
      FirstMatchAt(plan, rest, k - 1);
      assert forall j :: 0 <= j < k - 1 ==> rest[j] == table[j + 1];
      assert (forall j :: 0 <= j < k ==> !Includes(plan, table[j].0)) <==>
        (forall j :: 0 <= j < k - 1 ==> !Includes(plan, rest[j].0));
    }
  }

  /** Nothing is found exactly when no substring of the table occurs. */
  lemma {:induction false} FirstMatchNone(plan: string, table: seq<(string, string)>)
    ensures FirstMatch(plan, table) == None <==> forall k :: 0 <= k < |table| ==> !Includes(plan, table[k].0)
  {
    if |table| > 0 {
      var rest := table[1..];
      assert forall i :: 0 <= i < |rest| ==> rest[i] == table[i + 1];
      FirstMatchNone(plan, rest);
      assert (forall k :: 1 <= k < |table| ==> !Includes(plan, table[k].0)) <==>
        (forall k :: 0 <= k < |rest| ==> !Includes(plan, rest[k].0));
    }
  }

  /** Entry `k` of the table is the answer exactly when its substring is the first one `plan` contains. */
  lemma GetProjectTypeFirstMatch(plan: string, k: nat)
    requires k < |ProjectTypes|
    ensures GetProjectType(plan) == Some(ProjectTypes[k].1) <==>
      Includes(plan, ProjectTypes[k].0) && forall j :: 0 <= j < k ==> !Includes(plan, ProjectTypes[j].0)
  {
    GetProjectTypeTable(plan);
    LabelsDistinct();
    FirstMatchAt(plan, ProjectTypes, k);
  }

  /** No label exactly when no substring of the table occurs. */
  lemma GetProjectTypeNone(plan: string)
    ensures GetProjectType(plan) == None <==>
      forall k :: 0 <= k < |ProjectTypes| ==> !Includes(plan, ProjectTypes[k].0)
  {
    GetProjectTypeTable(plan);
    FirstMatchNone(plan, ProjectTypes);
  }

  // ---------------------------------------------------------------- unique tag names

  /** Every tag name of the catalog, plan by plan, in order. */
  function AllTags(nodes: seq<Plan>): seq<string>
  {
    if |nodes| == 0 then [] else AllTags(nodes[..|nodes| - 1]) + nodes[|nodes| - 1].tags
  }

  /** A JavaScript `Set` filled from `s`, read back in insertion order: `s` without its repeats. */
  function Dedup(s: seq<string>): seq<string>
  {
    if |s| == 0 then []
    else
      var d := Dedup(s[..|s| - 1]);
      if s[|s| - 1] in d then d else d + [s[|s| - 1]]
  }

  /** The position of the first occurrence of `x` in `s`. */
  function FirstIndex(s: seq<string>, x: string): (r: nat)
    requires x in s
    ensures r < |s| && s[r] == x && x !in s[..r]
  {
    if s[0] == x then 0
    else
      var r := FirstIndex(s[1..], x) + 1;
      assert s[..r] == [s[0]] + s[1..][..r - 1];
      r
  }

  lemma FirstIndexSnoc(s: seq<string>, x: string, y: string)
    requires y in s
    ensures FirstIndex(s + [x], y) == FirstIndex(s, y)
  {
    var i, j := FirstIndex(s + [x], y), FirstIndex(s, y);
    assert forall m :: 0 <= m < i ==> (s + [x])[m] != y by {
      forall m | 0 <= m < i ensures (s + [x])[m] != y { assert (s + [x])[..i][m] == (s + [x])[m]; }
    }
    assert forall m :: 0 <= m < j ==> s[m] != y by {
      forall m | 0 <= m < j ensures s[m] != y { assert s[..j][m] == s[m]; }
    }
    assert (s + [x])[j] == y;
  }

  /**
   * The project-type list holds every tag name of the catalog exactly once,
   * ordered by where each name first appears.
   */
  lemma {:induction false} DedupFirstAppearance(s: seq<string>)
    ensures forall x :: x in Dedup(s) <==> x in s
    ensures forall i, j :: 0 <= i < j < |Dedup(s)| ==> Dedup(s)[i] != Dedup(s)[j]
    ensures forall i, j :: 0 <= i < j < |Dedup(s)| ==>
      FirstIndex(s, Dedup(s)[i]) < FirstIndex(s, Dedup(s)[j])
  {
    if |s| > 0 {
      var p, x := s[..|s| - 1], s[|s| - 1];
      assert s == p + [x];
      DedupFirstAppearance(p);
      var d := Dedup(p);
      forall y | y in d ensures FirstIndex(s, y) == FirstIndex(p, y) {
        FirstIndexSnoc(p, x, y);
      }
      if x !in d {
        assert FirstIndex(s, x) == |p| by {
          assert s[|p|] == x && s[..|p|] == p;
        }
      }
    }
  }

  /** `setUniquePlans(Array.from(plansSet))`: the tag names of the catalog, first appearances only. */
  method CollectUniquePlans(nodes: seq<Plan>) returns (names: seq<string>)
    ensures names == Dedup(AllTags(nodes))
  {
    names := [];
    var i := 0;
    while i < |nodes|
      invariant 0 <= i <= |nodes|
      invariant names == Dedup(AllTags(nodes[..i]))
    {
      var tags := nodes[i].tags;
      ghost var seen := AllTags(nodes[..i]);
      var j := 0;
      assert seen + tags[..0] == seen;
      while j < |tags|
        invariant 0 <= j <= |tags|
        invariant names == Dedup(seen + tags[..j])
      {
        AddStep(seen, tags, j, names);
        if tags[j] !in names {
          names := names + [tags[j]];
        }
        j := j + 1;
      }
      NodeStep(nodes, i);
      assert tags[..j] == tags;
      i := i + 1;
    }
    assert nodes[..i] == nodes;
  }

  /** One `plansSet.add(name)`: the set read back gains the name unless it holds it already. */
  lemma AddStep(seen: seq<string>, tags: seq<string>, j: nat, names: seq<string>)
    requires j < |tags| && names == Dedup(seen + tags[..j])
    ensures (if tags[j] in names then names else names + [tags[j]]) == Dedup(seen + tags[..j + 1])
  {
    var before := seen + tags[..j];
    assert (before + [tags[j]])[..|before|] == before;
    assert seen + tags[..j + 1] == before + [tags[j]];
  }

  /** One more plan contributes its tag names after those of the plans before it. */
  lemma NodeStep(nodes: seq<Plan>, i: nat)
    requires i < |nodes|
    ensures AllTags(nodes[..i + 1]) == AllTags(nodes[..i]) + nodes[i].tags
  {
    assert nodes[..i + 1][..i] == nodes[..i];
  }

  // ---------------------------------------------------------------- candidates

  /** `nodes.filter(...)`: the plans one of whose plan nodes is named `tag`, in catalog order. */
  function FilterByTag(nodes: seq<Plan>, tag: string): (r: seq<Plan>)
    ensures forall p :: multiset(r)[p] == if tag in p.tags then multiset(nodes)[p] else 0
  {
    if |nodes| == 0 then []
    else
      var rest := FilterByTag(nodes[1..], tag);
      assert nodes == [nodes[0]] + nodes[1..];
      if tag in nodes[0].tags then [nodes[0]] + rest else rest
  }

  /** The candidates have exactly the selected tag, and lose no plan that has it. */
  lemma FilterByTagMembers(nodes: seq<Plan>, tag: string, p: Plan)
    ensures p in FilterByTag(nodes, tag) <==> p in nodes && tag in p.tags
  {
    assert p in FilterByTag(nodes, tag) <==> multiset(FilterByTag(nodes, tag))[p] > 0;
  }

  ghost predicate SortedByPrice(s: seq<Plan>) {
    forall i, j :: 0 <= i < j < |s| ==> s[i].price <= s[j].price
  }

  /** Exchanges two neighbouring entries of `a`. */
  method Swap(a: array<Plan>, i: int, j: int)
    requires 0 <= i < j < a.Length
    modifies a
    ensures a[..] == old(a[..])[i := old(a[j])][j := old(a[i])]
    ensures multiset(a[..]) == multiset(old(a[..]))
  {
    a[i], a[j] := a[j], a[i];
  }

  /** `selectedPlanNodes.sort((a, b) => a.price - b.price)`, in place. */
  method SortByPrice(a: array<Plan>)
    modifies a
    ensures SortedByPrice(a[..])
    ensures multiset(a[..]) == multiset(old(a[..]))
  {
    var i := 0;
    while i < a.Length
      invariant 0 <= i <= a.Length
      invariant forall k, l :: 0 <= k < l < i ==> a[k].price <= a[l].price
      invariant multiset(a[..]) == multiset(old(a[..]))
    {
      var j := i;
      while j > 0 && a[j - 1].price > a[j].price
        invariant 0 <= j <= i
        invariant forall k, l :: 0 <= k < l <= i && l != j ==> a[k].price <= a[l].price
        invariant multiset(a[..]) == multiset(old(a[..]))
      {
        Swap(a, j - 1, j);
        j := j - 1;
      }
      i := i + 1;
    }
  }

  /** Lines 150-158: the plans with the chosen tag, sorted ascending by price. */
  method SelectCandidates(nodes: seq<Plan>, tag: string) returns (candidates: seq<Plan>)
    ensures SortedByPrice(candidates)
    ensures multiset(candidates) == multiset(FilterByTag(nodes, tag))
  {
    var filtered := FilterByTag(nodes, tag);
    var a := new Plan[|filtered|](k requires 0 <= k < |filtered| => filtered[k]);
    assert a[..] == filtered;
    SortByPrice(a);
    candidates := a[..];
  }

  // ---------------------------------------------------------------- the choice

  /** `selectedPlanNodes[i]`: `undefined` outside the list, negative indices included. */
  function At(s: seq<Plan>, i: int): (r: Option<Plan>)
    ensures r.Some? <==> 0 <= i < |s|
    ensures r.Some? ==> r.value == s[i]
  {
    if 0 <= i < |s| then Some(s[i]) else None
  }

  /**
   * Bound `k` of a bucket label: `bucket.split("-").map(v => parseInt(v.replace("k", "000")))[k]`,
   * `undefined` (here NaN) when the label has fewer pieces.
   */
  function BucketBound(bucket: string, k: nat): JsNumber
  {
    var pieces := Split(bucket, '-');
    if k < |pieces| then ParseInt(ReplaceFirst(pieces[k], 'k', "000")) else NaN
  }

  predicate WithinBudget(price: int, budgetMin: JsNumber, budgetMax: JsNumber) {
    AtLeast(Num(price), budgetMin) && AtMost(Num(price), budgetMax)
  }

  /** The index `find` stops at: the first plan priced inside the window, or -1. */
  function FirstWithinBudget(s: seq<Plan>, budgetMin: JsNumber, budgetMax: JsNumber): (i: int)
    ensures -1 <= i < |s|
    ensures 0 <= i ==> WithinBudget(s[i].price, budgetMin, budgetMax)
    ensures forall j :: 0 <= j < |s| && (i == -1 || j < i) ==> !WithinBudget(s[j].price, budgetMin, budgetMax)
  {
    if |s| == 0 then -1
    else if WithinBudget(s[0].price, budgetMin, budgetMax) then 0
    else
      var i := FirstWithinBudget(s[1..], budgetMin, budgetMax);
      if i == -1 then -1 else i + 1
  }

  /** Lines 160-184: the plan `recommendedPlan` ends up holding (`None` for `undefined`). */
  function Recommend(candidates: seq<Plan>, traffic: string, budget: string): (r: Option<Plan>)
    ensures r.Some? ==> r.value in candidates
    ensures candidates == [] ==> r == None
  {
    if traffic == "1k-5k" && budget == "250-2k" then At(candidates, 0)
    else Choose(candidates, BucketBound(budget, 0), BucketBound(budget, 1), BucketBound(traffic, 0))
  }

  /** Lines 165-184: the choice once the bounds are parsed. */
  function Choose(candidates: seq<Plan>, budgetMin: JsNumber, budgetMax: JsNumber, trafficMax: JsNumber): (r: Option<Plan>)
    ensures r.Some? ==> r.value in candidates
    ensures candidates == [] ==> r == None
  {
    if Greater(trafficMax, budgetMax) then At(candidates, |candidates| - 1)
    else if Greater(budgetMax, trafficMax) then At(candidates, |candidates| / 2)
    else At(candidates, FirstWithinBudget(candidates, budgetMin, budgetMax))
  }

  /** `recommendedPlan ? [recommendedPlan] : []`: every plan object is truthy. */
  function AsList(r: Option<Plan>): (plans: seq<Plan>)
    ensures |plans| <= 1
    ensures r.None? <==> plans == []
    ensures r.Some? ==> plans == [r.value]
  {
    if r.Some? then [r.value] else []
  }

  /** Rule 1: the two lowest buckets pick the cheapest candidate. */
  lemma LowestBucketsPickCheapest(candidates: seq<Plan>)
    requires |candidates| > 0 && SortedByPrice(candidates)
    ensures var r := Recommend(candidates, "1k-5k", "250-2k");
      r == Some(candidates[0]) && forall p :: p in candidates ==> r.value.price <= p.price
  {
  }

  /** Rule 2a: traffic above the budget's upper bound picks the most expensive candidate. */
  lemma TrafficAbovePicksDearest(candidates: seq<Plan>, traffic: string, budget: string)
    requires |candidates| > 0 && SortedByPrice(candidates)
    requires !(traffic == "1k-5k" && budget == "250-2k")
    requires Greater(BucketBound(traffic, 0), BucketBound(budget, 1))
    ensures var r := Recommend(candidates, traffic, budget);
      r == Some(candidates[|candidates| - 1]) && forall p :: p in candidates ==> p.price <= r.value.price
  {
    ChooseDearest(candidates, BucketBound(budget, 0), BucketBound(budget, 1), BucketBound(traffic, 0));
  }

  lemma ChooseDearest(candidates: seq<Plan>, budgetMin: JsNumber, budgetMax: JsNumber, trafficMax: JsNumber)
    requires |candidates| > 0 && SortedByPrice(candidates)
    requires Greater(trafficMax, budgetMax)
    ensures var r := Choose(candidates, budgetMin, budgetMax, trafficMax);
      r == Some(candidates[|candidates| - 1]) && forall p :: p in candidates ==> p.price <= r.value.price
  {
    var n := |candidates|;
    forall p | p in candidates ensures p.price <= candidates[n - 1].price {
      var i :| 0 <= i < n && candidates[i] == p;
    }
  }

  /** Rule 2b: a budget upper bound above the traffic value picks the middle candidate, which always exists. */
  lemma BudgetAbovePicksMiddle(candidates: seq<Plan>, traffic: string, budget: string)
    requires |candidates| > 0 && SortedByPrice(candidates)
    requires !(traffic == "1k-5k" && budget == "250-2k")
    requires Greater(BucketBound(budget, 1), BucketBound(traffic, 0))
    ensures var r := Recommend(candidates, traffic, budget);
      r == Some(candidates[|candidates| / 2]) &&
      (forall i :: 0 <= i < |candidates| / 2 ==> candidates[i].price <= r.value.price) &&
      (forall i :: |candidates| / 2 <= i < |candidates| ==> r.value.price <= candidates[i].price)
  {
    ChooseMiddle(candidates, BucketBound(budget, 0), BucketBound(budget, 1), BucketBound(traffic, 0));
  }

  lemma ChooseMiddle(candidates: seq<Plan>, budgetMin: JsNumber, budgetMax: JsNumber, trafficMax: JsNumber)
    requires |candidates| > 0 && SortedByPrice(candidates)
    requires Greater(budgetMax, trafficMax)
    ensures var r := Choose(candidates, budgetMin, budgetMax, trafficMax);
      r == Some(candidates[|candidates| / 2]) &&
      (forall i :: 0 <= i < |candidates| / 2 ==> candidates[i].price <= r.value.price) &&
      (forall i :: |candidates| / 2 <= i < |candidates| ==> r.value.price <= candidates[i].price)
  {
  }

  /**
   * Rule 2c: when neither comparison holds (equal values, or a NaN), the
   * first candidate priced inside [budgetMin, budgetMax] is picked, and
   * nothing when no candidate is.
   */
  lemma EqualBoundsPickFirstWithinBudget(candidates: seq<Plan>, traffic: string, budget: string)
    requires !(traffic == "1k-5k" && budget == "250-2k")
    requires !Greater(BucketBound(traffic, 0), BucketBound(budget, 1))
    requires !Greater(BucketBound(budget, 1), BucketBound(traffic, 0))
    ensures var r := Recommend(candidates, traffic, budget);
      var lo, hi := BucketBound(budget, 0), BucketBound(budget, 1);
      (r == None <==> forall p :: p in candidates ==> !WithinBudget(p.price, lo, hi)) &&
      (r.Some? ==>
         WithinBudget(r.value.price, lo, hi) &&
         exists i :: 0 <= i < |candidates| && candidates[i] == r.value &&
           forall j :: 0 <= j < i ==> !WithinBudget(candidates[j].price, lo, hi))
  {
    ChooseFirstWithinBudget(candidates, BucketBound(budget, 0), BucketBound(budget, 1), BucketBound(traffic, 0));
  }

  lemma ChooseFirstWithinBudget(candidates: seq<Plan>, lo: JsNumber, hi: JsNumber, trafficMax: JsNumber)
    requires !Greater(trafficMax, hi) && !Greater(hi, trafficMax)
    ensures var r := Choose(candidates, lo, hi, trafficMax);
      (r == None <==> forall p :: p in candidates ==> !WithinBudget(p.price, lo, hi)) &&
      (r.Some? ==>
         WithinBudget(r.value.price, lo, hi) &&
         exists i :: 0 <= i < |candidates| && candidates[i] == r.value &&
           forall j :: 0 <= j < i ==> !WithinBudget(candidates[j].price, lo, hi))
  {
    var i := FirstWithinBudget(candidates, lo, hi);
    if i == -1 {
      forall p | p in candidates ensures !WithinBudget(p.price, lo, hi) {
        var j :| 0 <= j < |candidates| && candidates[j] == p;
      }
    }
  }

  // ---------------------------------------------------------------- the fixed tables

  /** `"lo-hi"` with no `-` inside either half splits into exactly its two halves. */
  lemma SplitRange(lo: string, hi: string)
    requires '-' !in lo && '-' !in hi
    ensures Split(lo + "-" + hi, '-') == [lo, hi]
  {
    SplitCons(lo, '-', hi);
    SplitNoSeparator(hi, '-');
  }

  predicate IsDecimal(ds: string) {
    |ds| >= 1 && forall i :: 0 <= i < |ds| ==> IsDigit(ds[i], 10)
  }

  /** Replacing the first `k` of a word whose only `k` is its last character. */
  lemma KiloSuffix(w: string)
    requires 'k' !in w
    ensures ReplaceFirst(w + "k", 'k', "000") == w + "000"
  {
    var piece := w + "k";
    assert piece[..|w|] == w && piece[|w| + 1..] == "";
    IndexOfAt(piece, 'k', |w|);
  }

  /** A piece `"<digits>k"` becomes `"<digits>000"`, read as that many thousands. */
  lemma KiloPiece(ds: string)
    requires IsDecimal(ds)
    ensures IsDecimal(ds + "000")
    ensures ParseInt(ReplaceFirst(ds + "k", 'k', "000")) == Num(DigitsValue(0, ds, 10) * 1000)
  {
    assert forall i :: 0 <= i < |ds| ==> ds[i] != 'k' by {
      assert forall i :: 0 <= i < |ds| ==> IsDigit(ds[i], 10);
    }
    KiloSuffix(ds);
    ThousandDigits(ds);
    ParseWord(ds + "000");
  }

  /** Three zeros after a run of digits multiply its value by a thousand. */
  lemma ThousandDigits(ds: string)
    requires IsDecimal(ds)
    ensures IsDecimal(ds + "000")
    ensures DigitsValue(0, ds + "000", 10) == DigitsValue(0, ds, 10) * 1000
  {
    DigitsValueAppend(0, ds, "000", 10);
    Thousand(DigitsValue(0, ds, 10));
  }

  lemma Thousand(acc: nat)
    ensures DigitsValue(acc, "000", 10) == acc * 1000
  {
    var z := "000";
    assert z[1..] == "00" && z[1..][1..] == "0" && z[1..][1..][1..] == "";
  }

  /** A whole word of digits is read as its value. */
  lemma ParseWord(ds: string)
    requires IsDecimal(ds)
    ensures ParseInt(ds) == Num(DigitsValue(0, ds, 10))
  {
    assert ds + "" == ds;
    ParseDigitRun(ds, "");
  }

  /** A piece `"<digits>.<digits>k"` is read as its integer part: `parseInt` stops at the point. */
  lemma FractionalKiloPiece(ds: string, fs: string)
    requires IsDecimal(ds) && IsDecimal(fs)
    ensures ParseInt(ReplaceFirst(ds + "." + fs + "k", 'k', "000")) == Num(DigitsValue(0, ds, 10))
  {
    FractionalKiloText(ds, fs);
    var rest := "." + fs + "000";
    assert rest[0] == '.';
    ParseDigitRun(ds, rest);
  }

  /** Replacing the `k` of `"<digits>.<digits>k"` leaves the integer part in front of the point. */
  lemma FractionalKiloText(ds: string, fs: string)
    requires IsDecimal(ds) && IsDecimal(fs)
    ensures ReplaceFirst(ds + "." + fs + "k", 'k', "000") == ds + ("." + fs + "000")
  {
    var w := ds + "." + fs;
    DecimalPointWord(ds, fs);
    KiloSuffix(w);
  }

  /** `"<digits>.<digits>"` holds no `k`. */
  lemma DecimalPointWord(ds: string, fs: string)
    requires IsDecimal(ds) && IsDecimal(fs)
    ensures 'k' !in ds + "." + fs
  {
    DigitsOnly(ds);
    DigitsOnly(fs);
  }

  /** A run of digits holds neither `k` nor `-`. */
  lemma DigitsOnly(ds: string)
    requires IsDecimal(ds)
    ensures 'k' !in ds && '-' !in ds
  {
    assert forall i :: 0 <= i < |ds| ==> IsDigit(ds[i], 10);
  }

  /** A piece of plain digits is read as its value. */
  lemma PlainPiece(ds: string)
    requires IsDecimal(ds)
    ensures ParseInt(ReplaceFirst(ds, 'k', "000")) == Num(DigitsValue(0, ds, 10))
  {
    DigitsOnly(ds);
    ParseWord(ds);
  }

  /** A bucket label `"<lo>k-<hi>k"` has the bounds lo and hi thousand. */
  lemma KiloRange(lo: string, hi: string)
    requires IsDecimal(lo) && IsDecimal(hi)
    ensures BucketBound(lo + "k-" + hi + "k", 0) == Num(DigitsValue(0, lo, 10) * 1000)
    ensures BucketBound(lo + "k-" + hi + "k", 1) == Num(DigitsValue(0, hi, 10) * 1000)
  {
    DigitsOnly(lo);
    DigitsOnly(hi);
    assert lo + "k-" + hi + "k" == (lo + "k") + "-" + (hi + "k");
    SplitRange(lo + "k", hi + "k");
    KiloPiece(lo);
    KiloPiece(hi);
  }

  /** A bucket label `"<lo>.<f>k-<hi>k"` has the bounds lo (not lo.f thousand) and hi thousand. */
  lemma FractionalKiloRange(lo: string, f: string, hi: string)
    requires IsDecimal(lo) && IsDecimal(f) && IsDecimal(hi)
    ensures BucketBound(lo + "." + f + "k-" + hi + "k", 0) == Num(DigitsValue(0, lo, 10))
    ensures BucketBound(lo + "." + f + "k-" + hi + "k", 1) == Num(DigitsValue(0, hi, 10) * 1000)
  {
    var first := lo + "." + f + "k";
    DigitsOnly(lo);
    DigitsOnly(f);
    DigitsOnly(hi);
    assert lo + "." + f + "k-" + hi + "k" == first + "-" + (hi + "k");
    SplitRange(first, hi + "k");
    FractionalKiloPiece(lo, f);
    KiloPiece(hi);
  }

  /** The label `"<lo>-<hi>k"` has the bounds lo and hi thousand. */
  lemma PlainKiloRange(lo: string, hi: string)
    requires IsDecimal(lo) && IsDecimal(hi)
    ensures BucketBound(lo + "-" + hi + "k", 0) == Num(DigitsValue(0, lo, 10))
    ensures BucketBound(lo + "-" + hi + "k", 1) == Num(DigitsValue(0, hi, 10) * 1000)
  {
    DigitsOnly(lo);
    DigitsOnly(hi);
    assert lo + "-" + hi + "k" == lo + "-" + (hi + "k");
    SplitRange(lo, hi + "k");
    PlainPiece(lo);
    KiloPiece(hi);
  }

  /** Both pieces of every traffic label are read as that bucket's bounds. */
  lemma TrafficBounds(k: nat)
    requires k < |TrafficFlow|
    ensures BucketBound(TrafficFlow[k].range, 0) == Num(TrafficFlow[k].min)
    ensures BucketBound(TrafficFlow[k].range, 1) == Num(TrafficFlow[k].max)
  {
    if k == 0 {
      TrafficRow(0, 1, 5);
    } else if k == 1 {
      TrafficRow(1, 6, 10);
    } else if k == 2 {
      TrafficRow(2, 11, 20);
    } else {
      TrafficRow(3, 21, 60);
    }
  }

  /** Traffic row `k` reads `"<lo>k-<hi>k"`, with bounds lo and hi thousand. */
  lemma TrafficRow(k: nat, lo: nat, hi: nat)
    requires k < |TrafficFlow| && 0 < lo < 100 && 0 < hi < 100
    requires TrafficFlow[k] == Bucket(DecimalString(lo) + "k-" + DecimalString(hi) + "k", lo * 1000, hi * 1000)
    ensures BucketBound(TrafficFlow[k].range, 0) == Num(TrafficFlow[k].min)
    ensures BucketBound(TrafficFlow[k].range, 1) == Num(TrafficFlow[k].max)
  {
    KiloRange(DecimalString(lo), DecimalString(hi));
    DecimalStringValue(lo);
    DecimalStringValue(hi);
  }

  /** `"250-2k"` is read as 250 to 2000. */
  lemma LowestBudgetBounds()
    ensures BucketBound(Budgets[0].range, 0) == Num(250) && BucketBound(Budgets[0].range, 1) == Num(2000)
  {
    assert Budgets[0].range == "250" + "-" + "2" + "k";
    PlainKiloRange("250", "2");
    assert DigitsValue(0, "250", 10) == 250 && DigitsValue(0, "2", 10) == 2;
  }

  /** `"<lo>.9k-<hi>k"` is read as lo to hi thousand. */
  lemma FractionalBudgetBounds(k: nat, lo: nat, hi: nat)
    requires 0 < k < |Budgets| && lo < 10 && 0 < hi < 100
    requires Budgets[k].range == [DigitChar(lo)] + "." + "9" + "k-" + DecimalString(hi) + "k"
    ensures BucketBound(Budgets[k].range, 0) == Num(lo) && BucketBound(Budgets[k].range, 1) == Num(hi * 1000)
  {
    FractionalKiloRange([DigitChar(lo)], "9", DecimalString(hi));
    DecimalStringValue(lo);
    DecimalStringValue(hi);
  }

  /**
   * The second piece of every budget label is read as that bucket's upper
   * bound; the first piece is read as 250, 1, 3 and 7: the lower bounds
   * `"1.9k"`, `"3.9k"` and `"7.9k"` lose everything after the point.
   */
  lemma BudgetBounds(k: nat)
    requires k < |Budgets|
    ensures BucketBound(Budgets[k].range, 1) == Num(Budgets[k].max)
    ensures BucketBound(Budgets[k].range, 0) == Num(if k == 0 then 250 else if k == 1 then 1 else if k == 2 then 3 else 7)
    ensures BucketBound(Budgets[k].range, 0) == Num(Budgets[k].min) <==> k == 0
  {
    if k == 0 {
      LowestBudgetBounds();
    } else if k == 1 {
      assert DecimalString(4) == "4";
      FractionalBudgetBounds(1, 1, 4);
    } else if k == 2 {
      assert DecimalString(8) == "8";
      FractionalBudgetBounds(2, 3, 8);
    } else {
      assert DecimalString(16) == "16";
      FractionalBudgetBounds(3, 7, 16);
    }
  }

  /** Only the first row of each table carries the labels rule 1 looks for. */
  lemma LowestLabels(t: nat, b: nat)
    requires t < |TrafficFlow| && b < |Budgets|
    ensures TrafficFlow[t].range == "1k-5k" <==> t == 0
    ensures Budgets[b].range == "250-2k" <==> b == 0
  {
    if t > 0 { assert TrafficFlow[t].range[0] != '1' || TrafficFlow[t].range[1] != 'k'; }
    if b > 0 { assert Budgets[b].range[0] != '2'; }
  }

  /** No traffic lower bound equals a budget upper bound: 1000, 6000, 11000 and 21000 against 2000, 4000, 8000 and 16000. */
  lemma BoundsNeverTie(t: nat, b: nat)
    requires t < |TrafficFlow| && b < |Budgets|
    ensures TrafficFlow[t].min != Budgets[b].max
  {
  }

  /** Outside rule 1, and with numeric bounds, the choice depends on the bounds alone. */
  lemma RecommendByBounds(candidates: seq<Plan>, traffic: string, budget: string, trafficMin: int, budgetMax: int)
    requires |candidates| > 0
    requires !(traffic == "1k-5k" && budget == "250-2k")
    requires BucketBound(traffic, 0) == Num(trafficMin) && BucketBound(budget, 1) == Num(budgetMax)
    requires trafficMin != budgetMax
    ensures Recommend(candidates, traffic, budget) ==
      if trafficMin > budgetMax then Some(candidates[|candidates| - 1]) else Some(candidates[|candidates| / 2])
  {
    ChooseByBounds(candidates, BucketBound(budget, 0), trafficMin, budgetMax);
  }

  lemma ChooseByBounds(candidates: seq<Plan>, budgetMin: JsNumber, trafficMin: int, budgetMax: int)
    requires |candidates| > 0 && trafficMin != budgetMax
    ensures Choose(candidates, budgetMin, Num(budgetMax), Num(trafficMin)) ==
      if trafficMin > budgetMax then Some(candidates[|candidates| - 1]) else Some(candidates[|candidates| / 2])
  {
  }

  /**
   * For every pair of labels the form offers and any non-empty candidate
   * list, one plan is recommended: the cheapest for the two lowest buckets,
   * the dearest when the traffic lower bound exceeds the budget upper bound,
   * the middle one otherwise. The `find` branch is never reached, because
   * no traffic lower bound equals a budget upper bound.
   */
  lemma TableRecommendation(candidates: seq<Plan>, t: nat, b: nat)
    requires |candidates| > 0 && t < |TrafficFlow| && b < |Budgets|
    ensures Recommend(candidates, TrafficFlow[t].range, Budgets[b].range) ==
      if t == 0 && b == 0 then Some(candidates[0])
      else if TrafficFlow[t].min > Budgets[b].max then Some(candidates[|candidates| - 1])
      else Some(candidates[|candidates| / 2])
  {
    LowestLabels(t, b);
    if !(t == 0 && b == 0) {
      TrafficBounds(t);
      BudgetBounds(b);
      BoundsNeverTie(t, b);
      RecommendByBounds(candidates, TrafficFlow[t].range, Budgets[b].range, TrafficFlow[t].min, Budgets[b].max);
    }
  }

  // ---------------------------------------------------------------- the component state

  /** The state of the `Home` component that the recommender reads and writes. */
  class Home {
    var uniquePlans: seq<string>
    var selectedPlan: string
    var selectedBudget: string
    var selectedTraffic: string
    var recommendedPlans: seq<Plan>

    constructor ()
      ensures uniquePlans == [] && recommendedPlans == []
      ensures selectedPlan == "" && selectedBudget == "" && selectedTraffic == ""
    {
      uniquePlans, recommendedPlans := [], [];
      selectedPlan, selectedBudget, selectedTraffic := "", "", "";
    }

    /** The mount effect once the catalog has arrived: the project-type menu entries. */
    method LoadPlans(nodes: seq<Plan>)
      modifies this`uniquePlans
      ensures uniquePlans == Dedup(AllTags(nodes))
    {
      uniquePlans := CollectUniquePlans(nodes);
    }

    /** The project-type select's `onValueChange`. */
    method SelectPlan(value: string)
      modifies this`selectedPlan
      ensures selectedPlan == value
    {
      selectedPlan := value;
    }

    /** The traffic select's `onValueChange`. */
    method SelectTraffic(value: string)
      modifies this`selectedTraffic
      ensures selectedTraffic == value
    {
      selectedTraffic := value;
    }

    /** The budget select's `onValueChange`. */
    method SelectBudget(value: string)
      modifies this`selectedBudget
      ensures selectedBudget == value
    {
      selectedBudget := value;
    }

    /**
     * `handleSubmit` once the catalog has arrived. `candidates` is its local
     * `selectedPlanNodes` after the sort.
     */
    method HandleSubmit(nodes: seq<Plan>) returns (candidates: seq<Plan>)
      modifies this`recommendedPlans
      ensures SortedByPrice(candidates)
      ensures multiset(candidates) == multiset(FilterByTag(nodes, selectedPlan))
      ensures recommendedPlans == AsList(Recommend(candidates, selectedTraffic, selectedBudget))
      ensures |recommendedPlans| <= 1
      ensures forall p :: p in recommendedPlans ==> p in nodes && selectedPlan in p.tags
    {
      candidates := SelectCandidates(nodes, selectedPlan);
      var recommended := Recommend(candidates, selectedTraffic, selectedBudget);
      recommendedPlans := AsList(recommended);
      if recommended.Some? {
        var p := recommended.value;
        assert p in multiset(FilterByTag(nodes, selectedPlan));
        FilterByTagMembers(nodes, selectedPlan, p);
      }
    }

    /** `resetForm`: the three selections are cleared. */
    method ResetForm()
      modifies this`selectedPlan, this`selectedBudget, this`selectedTraffic
      ensures selectedPlan == "" && selectedBudget == "" && selectedTraffic == ""
    {
      selectedPlan, selectedBudget, selectedTraffic := "", "", "";
    }
  }
}
