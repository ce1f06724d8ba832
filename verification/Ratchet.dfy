/** The ratchet over a set of symbols: tools/setratchet.py. */
module Ratchet {
  import opened Bytes

  type Symbol = string
  type Counts = map<Symbol, nat>

  /** Symbols declared unstable, by name or by prefix. */
  datatype Exempt = Exempt(names: set<Symbol>, prefixes: seq<string>)

  /** One record of accepted growth, or of an envelope. */
  datatype Entry = Accepted(symbols: set<Symbol>, reason: string, delta: int) | Envelope(runs: nat, size: nat, regions: int, why: string)

  datatype Doc = Doc(
    identity: Option<string>,
    symbols: Counts,
    unstable: Exempt,
    history: seq<Entry>,
    tree: Option<string>,
    totalRegions: Option<int>,
    minTotal: Option<int>)

  datatype Verdict = Pass | Fail | Refused

  // --- Comparison ----------------------------------------------------------------------

  predicate HasPrefix(prefixes: seq<string>, k: Symbol) {
    exists i :: 0 <= i < |prefixes| && prefixes[i] <= k
  }

  predicate Held(e: Exempt, k: Symbol) {
    k !in e.names && !HasPrefix(e.prefixes, k)
  }

  function HeldCounts(e: Exempt, m: Counts): Counts {
    map k | k in m && Held(e, k) :: m[k]
  }

  datatype Difference = Difference(grew: map<Symbol, int>, joined: map<Symbol, int>, shrank: map<Symbol, int>, left: map<Symbol, int>)

  /** compare, each symbol with the size of its change; the exemptions are the baseline's. */
  function Compare(base: Doc, obs: Doc): Difference {
    var b, o := HeldCounts(base.unstable, base.symbols), HeldCounts(base.unstable, obs.symbols);
    Difference(
      map k | k in b && k in o && o[k] > b[k] :: o[k] - b[k],
      map k | k in o && k !in b :: o[k] as int,
      map k | k in b && k in o && o[k] < b[k] :: b[k] - o[k],
      map k | k in b && k !in o :: b[k] as int)
  }

  /** Each map holds exactly the held symbols that changed its way, with the size of the change, and no symbol is in two. */
  lemma {:induction false} CompareExactly(base: Doc, obs: Doc, k: Symbol)
    ensures var d := Compare(base, obs);
            var b, o := base.symbols, obs.symbols;
            && (k in d.grew <==> Held(base.unstable, k) && k in b && k in o && o[k] > b[k])
            && (k in d.joined <==> Held(base.unstable, k) && k !in b && k in o)
            && (k in d.shrank <==> Held(base.unstable, k) && k in b && k in o && o[k] < b[k])
            && (k in d.left <==> Held(base.unstable, k) && k in b && k !in o)
            && (k in d.grew ==> d.grew[k] == o[k] - b[k]) && (k in d.joined ==> d.joined[k] == o[k])
            && (k in d.shrank ==> d.shrank[k] == b[k] - o[k]) && (k in d.left ==> d.left[k] == b[k])
  {
  }

  predicate Worse(d: Difference) {
    d.grew != map[] || d.joined != map[]
  }

  /** No held symbol joins or gains. */
  ghost predicate NoWorse(e: Exempt, b: Counts, o: Counts) {
    forall k :: k in o && Held(e, k) ==> k in b && o[k] <= b[k]
  }

  lemma {:induction false} WorseMeansGrowth(base: Doc, obs: Doc)
    ensures Worse(Compare(base, obs)) <==> !NoWorse(base.unstable, base.symbols, obs.symbols)
  {
    var d := Compare(base, obs);
    if Worse(d) {
      if d.grew != map[] {
        var k :| k in d.grew;
        assert k in obs.symbols && Held(base.unstable, k);
      } else {
        var k :| k in d.joined;
        assert k in obs.symbols && Held(base.unstable, k);
      }
    } else {
      forall k | k in obs.symbols && Held(base.unstable, k)
        ensures k in base.symbols && obs.symbols[k] <= base.symbols[k]
      {
        assert k !in d.joined && k !in d.grew;
      }
    }
  }

  // --- Sums --------------------------------------------------------------------------------

  function Get(m: map<Symbol, int>, k: Symbol): int {
    if k in m then m[k] else 0
  }

  /** The sum of m over keys; a key that m lacks counts zero. */
  ghost function SumOver(keys: set<Symbol>, m: map<Symbol, int>): int {
    if keys == {} then 0
    else
      var k :| k in keys;
      Get(m, k) + SumOver(keys - {k}, m)
  }

  ghost function Sum(m: map<Symbol, int>): int {
    SumOver(m.Keys, m)
  }

  lemma {:induction false} SumTakes(keys: set<Symbol>, m: map<Symbol, int>, k: Symbol)
    requires k in keys
    ensures SumOver(keys, m) == Get(m, k) + SumOver(keys - {k}, m)
    decreases |keys|
  {
    var x :| x in keys && SumOver(keys, m) == Get(m, x) + SumOver(keys - {x}, m);
    if x != k {
      SumTakes(keys - {x}, m, k);
      SumTakes(keys - {k}, m, x);
      assert keys - {x} - {k} == keys - {k} - {x};
    }
  }

  lemma {:induction false} SumIgnoresMissing(keys: set<Symbol>, m: map<Symbol, int>)
    requires m.Keys <= keys
    ensures SumOver(keys, m) == Sum(m)
    decreases |keys|
  {
    if k :| k in keys && k !in m {
      SumTakes(keys, m, k);
      SumIgnoresMissing(keys - {k}, m);
    } else {
      assert keys == m.Keys;
    }
  }

  /** Each change of one symbol balances, so the sums balance. */
  lemma {:induction false} SumsBalance(keys: set<Symbol>, b: map<Symbol, int>, o: map<Symbol, int>, d: Difference)
    requires forall k :: k in keys ==>
               Get(o, k) + Get(d.shrank, k) + Get(d.left, k) == Get(b, k) + Get(d.grew, k) + Get(d.joined, k)
    ensures SumOver(keys, o) + SumOver(keys, d.shrank) + SumOver(keys, d.left)
         == SumOver(keys, b) + SumOver(keys, d.grew) + SumOver(keys, d.joined)
    decreases |keys|
  {
    if keys != {} {
      var k :| k in keys;
      SumTakes(keys, o, k);
      SumTakes(keys, d.shrank, k);
      SumTakes(keys, d.left, k);
      SumTakes(keys, b, k);
      SumTakes(keys, d.grew, k);
      SumTakes(keys, d.joined, k);
      SumsBalance(keys - {k}, b, o, d);
    }
  }

  lemma {:induction false} SumNotNegative(keys: set<Symbol>, m: map<Symbol, int>)
    requires forall k :: k in m ==> m[k] >= 0
    ensures SumOver(keys, m) >= 0
    decreases |keys|
  {
    if keys != {} {
      var k :| k in keys;
      SumTakes(keys, m, k);
      SumNotNegative(keys - {k}, m);
    }
  }

  /** Regions held, under the given exemptions. */
  ghost function HeldTotal(e: Exempt, m: Counts): int {
    Sum(HeldCounts(e, m))
  }

  /** The delta that an update records. */
  ghost function Delta(d: Difference): int {
    Sum(d.joined) + Sum(d.grew)
  }

  /** Exact accounting of one comparison: what joined and grew, less what shrank and left, is the change of the total. */
  lemma {:induction false} CompareBalances(base: Doc, obs: Doc)
    ensures var d := Compare(base, obs);
            HeldTotal(base.unstable, obs.symbols) + Sum(d.shrank) + Sum(d.left)
            == HeldTotal(base.unstable, base.symbols) + Delta(d)
    ensures Sum(Compare(base, obs).shrank) >= 0 && Sum(Compare(base, obs).left) >= 0
  {
    var d := Compare(base, obs);
    var b, o := HeldCounts(base.unstable, base.symbols), HeldCounts(base.unstable, obs.symbols);
    var keys := b.Keys + o.Keys;
    SumsBalance(keys, b, o, d);
    SumIgnoresMissing(keys, b);
    SumIgnoresMissing(keys, o);
    SumIgnoresMissing(keys, d.grew);
    SumIgnoresMissing(keys, d.joined);
    SumIgnoresMissing(keys, d.shrank);
    SumIgnoresMissing(keys, d.left);
    SumNotNegative(d.shrank.Keys, d.shrank);
    SumNotNegative(d.left.Keys, d.left);
  }

  // --- Gate and update -------------------------------------------------------------------------

  /** gate */
  function Gate(base: Doc, obs: Doc): Verdict {
    var floor := if base.minTotal.Some? then base.minTotal.value else 1;
    if base.identity == None || obs.identity == None || base.identity != obs.identity then Refused
    else if obs.totalRegions.Some? && obs.totalRegions.value < floor then Refused
    else if Worse(Compare(base, obs)) then Fail
    else Pass
  }

  /** k is p and something after it. */
  predicate Extends(k: Symbol, p: string) {
    |p| <= |k| && forall i :: 0 <= i < |p| ==> k[i] == p[i]
  }

  /** A symbol is exempt exactly when the list names it, or names a prefix of it. */
  lemma {:induction false} ExemptExactly(e: Exempt, k: Symbol)
    ensures !Held(e, k) <==> k in e.names || exists p :: p in e.prefixes && Extends(k, p)
  {
    if HasPrefix(e.prefixes, k) {
      var i :| 0 <= i < |e.prefixes| && e.prefixes[i] <= k;
      assert e.prefixes[i] in e.prefixes && Extends(k, e.prefixes[i]);
    }
    if exists p :: p in e.prefixes && Extends(k, p) {
      var p :| p in e.prefixes && Extends(k, p);
      var i :| 0 <= i < |e.prefixes| && e.prefixes[i] == p;
      assert p == k[..|p|];
    }
  }

  /** Baseline and observation were measured, and measured the same way. */
  predicate SameMeasure(base: Doc, obs: Doc) {
    base.identity.Some? && obs.identity.Some? && base.identity.value == obs.identity.value
  }

  /** The observation counted fewer regions than the baseline allows, which is at least one. */
  predicate TooFew(base: Doc, obs: Doc) {
    && obs.totalRegions.Some?
    && (match base.minTotal
        case Some(floor) => obs.totalRegions.value < floor
        case None => obs.totalRegions.value < 1)
  }

  /** The gate refuses what it cannot compare or counts too little, fails on growth of a held symbol, and passes the rest. */
  lemma {:induction false} GateExactly(base: Doc, obs: Doc)
    ensures Gate(base, obs) == Refused <==> !SameMeasure(base, obs) || TooFew(base, obs)
    ensures Gate(base, obs) == Pass
       <==> SameMeasure(base, obs) && !TooFew(base, obs)
            && forall k :: k in obs.symbols && Held(base.unstable, k) ==> k in base.symbols && obs.symbols[k] <= base.symbols[k]
  {
    hide Compare, Worse;
    WorseMeansGrowth(base, obs);
  }

  /** The entry that accepted growth leaves in the history. */
  ghost function EntryFor(d: Difference, reason: string): Entry {
    Accepted(d.joined.Keys + d.grew.Keys, reason, Delta(d))
  }

  /** update: the verdict and the stored baseline after it; the new baseline is the observed document with the old history. */
  ghost function Update(stored: Option<Doc>, obs: Doc, reason: string): (r: (Verdict, Option<Doc>))
    ensures stored.Some? ==> r.1.Some?
  {
    match stored
    case None => (Pass, Some(obs.(history := [])))
    case Some(base) =>
      if base.identity == None || obs.identity == None || base.identity != obs.identity then (Refused, stored)
      else
        var d := Compare(base, obs);
        if Worse(d) && reason == "" then (Fail, stored)
        else if Worse(d) then (Pass, Some(obs.(history := base.history + [EntryFor(d, reason)])))
        else (Pass, Some(obs.(history := base.history)))
  }

  /** Held symbol k is new in the observation, or has more regions there. */
  predicate Grows(base: Doc, obs: Doc, k: Symbol) {
    k in obs.symbols && Held(base.unstable, k) && (k in base.symbols ==> obs.symbols[k] > base.symbols[k])
  }

  /**
   A first update stores what was observed. A later one is refused off its measure and fails on
   growth without a reason, and then changes nothing; otherwise it stores what was observed, with
   the old history and, for growth, one entry that names exactly the symbols that grew.
   */
  lemma {:induction false} UpdateExactly(base: Doc, obs: Doc, reason: string)
    ensures Update(None, obs, reason) == (Pass, Some(obs.(history := [])))
    ensures var (v, after) := Update(Some(base), obs, reason);
            var grown := exists k :: Grows(base, obs, k);
            && (v == Refused <==> !SameMeasure(base, obs))
            && (v == Fail <==> SameMeasure(base, obs) && grown && reason == "")
            && (v != Pass ==> after == Some(base))
            && (v == Pass ==> after.Some? && after.value == obs.(history := after.value.history))
            && (v == Pass && !grown ==> after.value.history == base.history)
            && (v == Pass && grown ==>
                  && |after.value.history| == |base.history| + 1 && base.history <= after.value.history
                  && var e := after.value.history[|base.history|];
                     && e.Accepted? && e.reason == reason
                     && forall k :: k in e.symbols <==> Grows(base, obs, k))
  {
    var d := Compare(base, obs);
    forall k
      ensures Grows(base, obs, k) <==> k in d.joined.Keys + d.grew.Keys
    {
      CompareExactly(base, obs, k);
    }
    hide Compare, Delta, Held;
    if Worse(d) {
      if d.grew != map[] {
        var k :| k in d.grew;
        assert Grows(base, obs, k);
      } else {
        var k :| k in d.joined;
        assert Grows(base, obs, k);
      }
    }
  }

  /** Without a reason, update records exactly what gate passes, apart from gate's floor. */
  lemma {:induction false} GateAgreesWithUpdate(base: Doc, obs: Doc)
    ensures var (v, after) := Update(Some(base), obs, "");
            && (Gate(base, obs) == Pass ==> v == Pass)
            && (Gate(base, obs) == Fail ==> v == Fail && after == Some(base))
            && (v == Pass ==> Gate(base, obs) == Pass || (obs.totalRegions.Some? && Gate(base, obs) == Refused))
  {
  }

  datatype Request = Request(obs: Doc, reason: string)

  /** A run of updates; refused and failed ones leave the stored baseline as it is. */
  ghost function Updates(base: Doc, requests: seq<Request>): Doc
    decreases |requests|
  {
    if requests == [] then base
    else Updates(Update(Some(base), requests[0].obs, requests[0].reason).1.value, requests[1..])
  }

  function Deltas(history: seq<Entry>): int {
    if history == [] then 0
    else Deltas(history[..|history| - 1])
         + (match history[|history| - 1] case Accepted(_, _, delta) => delta case Envelope(_, _, _, _) => 0)
  }

  ghost predicate SameExemptions(e: Exempt, requests: seq<Request>) {
    forall i :: 0 <= i < |requests| ==> requests[i].obs.unstable == e
  }

  /** One update: the history only grows, and the held total by no more than the delta it records. */
  lemma {:induction false} UpdateAccounts(base: Doc, obs: Doc, reason: string)
    requires obs.unstable == base.unstable
    ensures var after := Update(Some(base), obs, reason).1.value;
            && after.unstable == base.unstable && base.history <= after.history
            && HeldTotal(base.unstable, after.symbols) - Deltas(after.history)
               <= HeldTotal(base.unstable, base.symbols) - Deltas(base.history)
  {
    CompareBalances(base, obs);
    WorseMeansGrowth(base, obs);
    var d := Compare(base, obs);
    var after := Update(Some(base), obs, reason).1.value;
    if !Worse(d) {
      assert Sum(d.grew) == 0 && Sum(d.joined) == 0;
    } else if after != base {
      assert (base.history + [EntryFor(d, reason)])[..|base.history|] == base.history;
    }
  }

  /**
   Ratchet accounting: over any run of updates under one exemption list, the held regions never
   exceed the initial total plus the deltas that the run added to the history.
   */
  lemma {:induction false} RatchetAccounts(base: Doc, requests: seq<Request>)
    requires SameExemptions(base.unstable, requests)
    ensures var after := Updates(base, requests);
            && base.history <= after.history && after.unstable == base.unstable
            && HeldTotal(base.unstable, after.symbols)
               <= HeldTotal(base.unstable, base.symbols) + Deltas(after.history) - Deltas(base.history)
    decreases |requests|
  {
    hide Update, HeldTotal, Deltas;
    if requests != [] {
      UpdateAccounts(base, requests[0].obs, requests[0].reason);
      RatchetAccounts(Update(Some(base), requests[0].obs, requests[0].reason).1.value, requests[1..]);
    }
  }

  /** f is held by the baseline and by the exemption list of every request. */
  ghost predicate HeldThroughout(base: Doc, requests: seq<Request>, f: Symbol) {
    Held(base.unstable, f) && forall i :: 0 <= i < |requests| ==> Held(requests[i].obs.unstable, f)
  }

  /** Without a reason, a symbol that no recorded list exempts never joins or gains, whatever else the lists do. */
  lemma {:induction false} HeldSymbolsNeverGrow(base: Doc, requests: seq<Request>, f: Symbol)
    requires forall i :: 0 <= i < |requests| ==> requests[i].reason == ""
    ensures var after := Updates(base, requests);
            && after.history == base.history
            && (HeldThroughout(base, requests, f) && f in after.symbols ==>
                  f in base.symbols && after.symbols[f] <= base.symbols[f])
    decreases |requests|
  {
    if requests != [] {
      var next := Update(Some(base), requests[0].obs, "").1.value;
      WorseMeansGrowth(base, requests[0].obs);
      HeldSymbolsNeverGrow(next, requests[1..], f);
    }
  }

  /** Without a reason no held symbol ever joins or gains, and the history is left alone. */
  lemma {:induction false} NoReasonNoGrowth(base: Doc, requests: seq<Request>)
    requires SameExemptions(base.unstable, requests)
    requires forall i :: 0 <= i < |requests| ==> requests[i].reason == ""
    ensures var after := Updates(base, requests);
            after.history == base.history && NoWorse(base.unstable, base.symbols, after.symbols)
  {
    HeldSymbolsNeverGrow(base, requests, "");
    forall f | Held(base.unstable, f) && f in Updates(base, requests).symbols
      ensures f in base.symbols && Updates(base, requests).symbols[f] <= base.symbols[f]
    {
      HeldSymbolsNeverGrow(base, requests, f);
    }
  }

  /** An update without a reason that records more of f. */
  ghost predicate RecordsMore(base: Doc, obs: Doc, f: Symbol) {
    Update(Some(base), obs, "").0 == Pass && f in obs.symbols && (f in base.symbols ==> obs.symbols[f] > base.symbols[f])
  }

  /** The next update without a reason can record more of f exactly when the stored baseline exempts f. */
  lemma {:induction false} GrowthNeedsAnExemption(base: Doc, f: Symbol)
    requires base.identity.Some?
    ensures (exists obs: Doc :: RecordsMore(base, obs, f)) <==> !Held(base.unstable, f)
  {
    var more := base.(symbols := base.symbols[f := if f in base.symbols then base.symbols[f] + 1 else 0]);
    WorseMeansGrowth(base, more);
    if !Held(base.unstable, f) {
      assert RecordsMore(base, more, f);
    }
    forall obs: Doc | RecordsMore(base, obs, f)
      ensures !Held(base.unstable, f)
    {
      WorseMeansGrowth(base, obs);
    }
  }

  const FREE := Exempt({}, [])

  /**
   The exemption list comes from the stored baseline, but an update replaces it with the observed
   one: two updates without a reason can exempt a held symbol and then let it grow.
   */
  lemma {:induction false} ExemptionsCanBeWidened(f: Symbol, n: nat, m: nat)
    requires n < m
    ensures var base := Doc(Some("id"), map[f := n], FREE, [], None, None, None);
            var exempting := base.(unstable := Exempt({f}, []));
            var after := Updates(base, [Request(exempting, ""), Request(exempting.(symbols := map[f := m]), "")]);
            after.history == [] && Held(base.unstable, f) && f in after.symbols && after.symbols[f] > base.symbols[f]
  {
    var base := Doc(Some("id"), map[f := n], FREE, [], None, None, None);
    var exempting := base.(unstable := Exempt({f}, []));
    var grown := exempting.(symbols := map[f := m]);
    WorseMeansGrowth(base, exempting);
    assert Update(Some(base), exempting, "").1 == Some(exempting);
    WorseMeansGrowth(exempting, grown);
    assert !Held(exempting.unstable, f);
    assert Update(Some(exempting), grown, "").1 == Some(grown);
    var requests := [Request(exempting, ""), Request(grown, "")];
    assert requests[1..] == [Request(grown, "")] && requests[1..][1..] == [];
    assert Updates(base, requests) == Updates(exempting, requests[1..]) == Updates(grown, []);
  }

  // --- Envelope -----------------------------------------------------------------------------------

  /** merged holds, for each symbol of the documents, its largest count. */
  ghost predicate IsMaximum(docs: seq<Doc>, merged: Counts) {
    && (forall i, k :: 0 <= i < |docs| && k in docs[i].symbols ==> k in merged && docs[i].symbols[k] <= merged[k])
    && (forall k :: k in merged ==> Attained(docs, k, merged[k]))
  }

  ghost predicate Attained(docs: seq<Doc>, k: Symbol, v: nat) {
    exists i :: 0 <= i < |docs| && k in docs[i].symbols && docs[i].symbols[k] == v
  }

  lemma {:induction false} MaximumIsUnique(docs: seq<Doc>, a: Counts, b: Counts)
    requires IsMaximum(docs, a) && IsMaximum(docs, b)
    ensures a == b
  {
    forall k
      ensures k in a <==> k in b
      ensures k in a ==> a[k] == b[k]
    {
      if k in a {
        assert Attained(docs, k, a[k]);
      }
      if k in b {
        assert Attained(docs, k, b[k]);
      }
    }
  }

  /** The merge loop of envelope. */
  method Merge(docs: seq<Doc>) returns (merged: Counts)
    ensures IsMaximum(docs, merged)
  {
    hide IsMaximum;
    merged := map[];
    MergeStart(docs);
    for i := 0 to |docs|
      invariant IsMaximum(docs[..i], merged)
    {
      ghost var before := merged;
      merged := MergeOne(merged, docs[i].symbols);
      MergeStep(docs, i, before, merged);
    }
    assert docs[..|docs|] == docs;
  }

  /** The inner loop: one document's symbols, in any order. */
  method MergeOne(before: Counts, d: Counts) returns (merged: Counts)
    ensures Merging(before, d, {}, merged)
  {
    hide Merging;
    merged := before;
    var todo := d.Keys;
    MergingStarts(before, d);
    while todo != {}
      invariant todo <= d.Keys
      invariant Merging(before, d, todo, merged)
      decreases |todo|
    {
      var k :| k in todo;
      MergingStep(before, d, todo, merged, k);
      var was := if k in merged then merged[k] else 0;
      merged := merged[k := if was < d[k] then d[k] else was];
      todo := todo - {k};
    }
  }

  /** What is merged while todo of the document's symbols are left. */
  ghost predicate Merging(before: Counts, d: Counts, todo: set<Symbol>, merged: Counts) {
    && (forall k :: k in merged <==> k in before || (k in d && k !in todo))
    && (forall k :: k in merged ==> merged[k] == MergedCount(before, d, todo, k))
  }

  lemma {:induction false} MergingStarts(before: Counts, d: Counts)
    ensures Merging(before, d, d.Keys, before)
  {
  }

  lemma {:induction false} MergingStep(before: Counts, d: Counts, todo: set<Symbol>, merged: Counts, k: Symbol)
    requires Merging(before, d, todo, merged) && k in todo && todo <= d.Keys
    ensures var was := if k in merged then merged[k] else 0;
            Merging(before, d, todo - {k}, merged[k := if was < d[k] then d[k] else was])
  {
    assert k in merged <==> k in before;
  }

  lemma {:induction false} MergeStart(docs: seq<Doc>)
    ensures IsMaximum(docs[..0], map[])
  {
  }

  /** A symbol's count while document d is being merged and todo of its symbols are left. */
  function MergedCount(before: Counts, d: Counts, todo: set<Symbol>, k: Symbol): nat {
    var was := if k in before then before[k] else 0;
    if k in d && k !in todo && was < d[k] then d[k] else was
  }

  lemma {:induction false} MergeStep(docs: seq<Doc>, i: nat, before: Counts, merged: Counts)
    requires i < |docs| && IsMaximum(docs[..i], before)
    requires Merging(before, docs[i].symbols, {}, merged)
    ensures IsMaximum(docs[..i + 1], merged)
  {
    var more := docs[..i + 1];
    forall j, k | 0 <= j < |more| && k in more[j].symbols
      ensures k in merged && more[j].symbols[k] <= merged[k]
    {
      if j < i {
        assert more[j] == docs[..i][j];
      }
    }
    forall k | k in merged
      ensures Attained(more, k, merged[k])
    {
      if k in before && merged[k] == before[k] {
        assert Attained(docs[..i], k, before[k]);
        var j :| 0 <= j < i && k in docs[..i][j].symbols && docs[..i][j].symbols[k] == before[k];
        assert more[j] == docs[..i][j];
      } else {
        assert more[i] == docs[i];
      }
    }
  }

  predicate Dirty(tree: string) {
    |tree| >= 6 && tree[|tree| - 6..] == "-dirty"
  }

  /** The documents are runs of one clean tree, measured the same way. */
  predicate OneCleanTree(docs: seq<Doc>) {
    && docs != []
    && (forall i :: 0 <= i < |docs| ==> docs[i].identity.Some? && docs[i].identity == docs[0].identity)
    && (forall i :: 0 <= i < |docs| ==> docs[i].tree.Some? && docs[i].tree == docs[0].tree)
    && !(docs[0].tree.Some? && Dirty(docs[0].tree.value))
  }

  /** One tree, not marked as dirty, and one identity, on every document. */
  ghost predicate AllOf(docs: seq<Doc>, id: string, tree: string) {
    forall i :: 0 <= i < |docs| ==> docs[i].identity == Some(id) && docs[i].tree == Some(tree)
  }

  lemma {:induction false} OneCleanTreeExactly(docs: seq<Doc>)
    ensures OneCleanTree(docs) <==> docs != [] && exists id, tree :: AllOf(docs, id, tree) && !Dirty(tree)
  {
    if OneCleanTree(docs) {
      assert docs[0].identity.Some? && docs[0].tree.Some?;
      assert AllOf(docs, docs[0].identity.value, docs[0].tree.value);
    }
    if docs != [] && exists id, tree :: AllOf(docs, id, tree) && !Dirty(tree) {
      var id, tree :| AllOf(docs, id, tree) && !Dirty(tree);
      assert docs[0].identity == Some(id) && docs[0].tree == Some(tree);
    }
  }

  /** A tree is dirty exactly when its name is some name and "-dirty" after it. */
  lemma {:induction false} DirtyExactly(tree: string)
    ensures Dirty(tree) <==> exists clean :: IsSuffixed(tree, clean)
  {
    if Dirty(tree) {
      assert tree == tree[..|tree| - 6] + tree[|tree| - 6..];
      assert IsSuffixed(tree, tree[..|tree| - 6]);
    }
    if exists clean :: IsSuffixed(tree, clean) {
      var clean :| IsSuffixed(tree, clean);
      assert tree[|clean|..] == "-dirty";
    }
  }

  predicate IsSuffixed(tree: string, clean: string) {
    tree == clean + "-dirty"
  }

  /** sum(m.values()) */
  method Total(m: map<Symbol, int>) returns (t: int)
    ensures t == Sum(m)
  {
    t := 0;
    var todo := m.Keys;
    while todo != {}
      invariant todo <= m.Keys && t + SumOver(todo, m) == Sum(m)
      decreases |todo|
    {
      var k :| k in todo;
      SumTakes(todo, m, k);
      t := t + m[k];
      todo := todo - {k};
    }
  }

  /** The envelope is worse than the stored baseline, as far as that one can be compared. */
  ghost predicate EnvelopeIsWorse(stored: Option<Doc>, docs: seq<Doc>, merged: Counts) {
    && stored.Some? && docs != [] && stored.value.identity == docs[0].identity
    && !NoWorse(stored.value.unstable, stored.value.symbols, merged)
  }

  const DEFAULT_WHY := "element-wise maximum; growth now means worse than the worst observed run"

  /**
   envelope: the element-wise maximum of several runs of one clean tree. Against a stored baseline
   of the same identity it must not be worse, unless a reason is given; a stored baseline of
   another identity is not compared and is replaced.
   */
  method EnvelopeOver(stored: Option<Doc>, docs: seq<Doc>, reason: string)
      returns (v: Verdict, after: Option<Doc>, merged: Counts)
    ensures v == Refused <==> !OneCleanTree(docs) || (stored.Some? && stored.value.identity == None)
    ensures v != Refused ==> IsMaximum(docs, merged)
    ensures v == Fail <==> v != Refused && reason == "" && EnvelopeIsWorse(stored, docs, merged)
    ensures v != Pass ==> after == stored
    ensures v == Pass ==>
              var history := if stored.Some? then stored.value.history else [];
              var why := if reason == "" then DEFAULT_WHY else reason;
              after == Some(docs[|docs| - 1].(symbols := merged,
                                               history := history + [Envelope(|docs|, |merged|, Sum(merged), why)]))
  {
    merged := map[];
    if !OneCleanTree(docs) {
      return Refused, stored, merged;
    }
    var last := docs[|docs| - 1];
    merged := Merge(docs);
    var history: seq<Entry> := [];
    if stored.Some? {
      var prior := stored.value;
      if prior.identity == None {
        return Refused, stored, merged;
      }
      history := prior.history;
      if prior.identity == last.identity {
        var synthetic := last.(symbols := merged);
        WorseMeansGrowth(prior, synthetic);
        if Worse(Compare(prior, synthetic)) && reason == "" {
          return Fail, stored, merged;
        }
      }
    }
    var regions := Total(merged);
    var entry := Envelope(|docs|, |merged|, regions, if reason == "" then DEFAULT_WHY else reason);
    after := Some(last.(symbols := merged, history := history + [entry]));
    return Pass, after, merged;
  }

  /** Every merged set passes against the envelope: it shows no growth and no joins. */
  lemma {:induction false} EnvelopeCovers(docs: seq<Doc>, envelope: Doc, i: nat)
    requires IsMaximum(docs, envelope.symbols) && i < |docs|
    ensures !Worse(Compare(envelope, docs[i]))
  {
    WorseMeansGrowth(envelope, docs[i]);
  }

  /** And it is the tightest such baseline: any that no merged set exceeds, with nothing exempt, is at least as large. */
  lemma {:induction false} EnvelopeIsTight(docs: seq<Doc>, merged: Counts, other: Doc)
    requires IsMaximum(docs, merged) && other.unstable == FREE
    requires forall i :: 0 <= i < |docs| ==> !Worse(Compare(other, docs[i]))
    ensures forall k :: k in merged ==> k in other.symbols && merged[k] <= other.symbols[k]
  {
    forall k | k in merged
      ensures k in other.symbols && merged[k] <= other.symbols[k]
    {
      assert Attained(docs, k, merged[k]);
      var i :| 0 <= i < |docs| && k in docs[i].symbols && docs[i].symbols[k] == merged[k];
      WorseMeansGrowth(other, docs[i]);
      assert Held(FREE, k);
    }
  }

  /** The baseline file. */
  class Baseline {
    var stored: Option<Doc>

    constructor ()
      ensures stored == None
    {
      stored := None;
    }

    /** update */
    method Record(obs: Doc, reason: string) returns (v: Verdict)
      modifies this
      ensures (v, stored) == Update(old(stored), obs, reason)
    {
      var history: seq<Entry> := [];
      if stored.Some? {
        var base := stored.value;
        if base.identity == None || obs.identity == None || base.identity != obs.identity {
          return Refused;
        }
        history := base.history;
        var d := Compare(base, obs);
        if Worse(d) && reason == "" {
          return Fail;
        }
        if Worse(d) {
          var joined := Total(d.joined);
          var grew := Total(d.grew);
          history := history + [Accepted(d.joined.Keys + d.grew.Keys, reason, joined + grew)];
        }
      }
      stored := Some(obs.(history := history));
      return Pass;
    }
  }
}
