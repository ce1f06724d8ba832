/** Runs of the ratchet that mix updates and envelopes: tools/setratchet.py. */
module RatchetRuns {
  import opened Bytes
  import opened Ratchet

  /** The element-wise maximum, as a function of the sets. */
  function Merged(docs: seq<Doc>): Counts {
    if docs == [] then map[]
    else
      var before, d := Merged(docs[..|docs| - 1]), docs[|docs| - 1].symbols;
      map k | k in before.Keys + d.Keys :: MergedCount(before, d, {}, k)
  }

  lemma {:induction false} MergedIsMaximum(docs: seq<Doc>)
    ensures IsMaximum(docs, Merged(docs))
    decreases |docs|
  {
    if docs != [] {
      var n := |docs| - 1;
      MergedIsMaximum(docs[..n]);
      assert Merging(Merged(docs[..n]), docs[n].symbols, {}, Merged(docs));
      MergeStep(docs, n, Merged(docs[..n]), Merged(docs));
      assert docs[..n + 1] == docs;
    }
  }

  /** envelope: the verdict, and the stored baseline after it. */
  ghost function EnvelopeOf(stored: Option<Doc>, docs: seq<Doc>, reason: string): (r: (Verdict, Option<Doc>))
    ensures stored.Some? ==> r.1.Some?
  {
    if !OneCleanTree(docs) || (stored.Some? && stored.value.identity == None) then (Refused, stored)
    else
      var merged := Merged(docs);
      var history := if stored.Some? then stored.value.history else [];
      var why := if reason == "" then DEFAULT_WHY else reason;
      if reason == "" && EnvelopeIsWorse(stored, docs, merged) then (Fail, stored)
      else
        (Pass, Some(docs[|docs| - 1].(symbols := merged, history := history + [Envelope(|docs|, |merged|, Sum(merged), why)])))
  }

  /** The envelope of the source, on the baseline file. */
  method RecordEnvelope(b: Baseline, docs: seq<Doc>, reason: string) returns (v: Verdict)
    modifies b
    ensures (v, b.stored) == EnvelopeOf(old(b.stored), docs, reason)
  {
    MergedIsMaximum(docs);
    var after, merged;
    v, after, merged := EnvelopeOver(b.stored, docs, reason);
    if v != Refused {
      MaximumIsUnique(docs, merged, Merged(docs));
    }
    b.stored := after;
  }

  // --- When an envelope needs no reason -----------------------------------------------------

  /** Without a reason an envelope is stored exactly when it lets no held symbol join or gain, or the baseline is of another identity. */
  lemma {:induction false} EnvelopeWithoutReason(base: Doc, docs: seq<Doc>)
    requires base.identity.Some? && OneCleanTree(docs)
    ensures EnvelopeOf(Some(base), docs, "").0 == Pass
       <==> base.identity != docs[0].identity || NoWorse(base.unstable, base.symbols, Merged(docs))
  {
    var last := docs[|docs| - 1];
    assert last.identity == docs[0].identity;
    WorseMeansGrowth(base, last.(symbols := Merged(docs)));
  }

  /** So an envelope of another identity replaces a baseline and grows a held symbol, with no reason given. */
  lemma {:induction false} AnotherIdentityIsNotCompared(f: Symbol, n: nat, m: nat)
    requires n < m
    ensures var base := Doc(Some("here"), map[f := n], FREE, [], None, None, None);
            var run := Doc(Some("there"), map[f := m], FREE, [], Some("t"), None, None);
            var (v, after) := EnvelopeOf(Some(base), [run], "");
            && v == Pass && after.Some? && Held(base.unstable, f)
            && f in after.value.symbols && after.value.symbols[f] == m > base.symbols[f]
  {
    var base := Doc(Some("here"), map[f := n], FREE, [], None, None, None);
    var run := Doc(Some("there"), map[f := m], FREE, [], Some("t"), None, None);
    var docs := [run];
    assert docs[0] == run && docs[..0] == [];
    assert "here"[0] != "there"[0];
    EnvelopeWithoutReason(base, docs);
    assert Merged(docs[..0]) == map[];
    assert f in Merged(docs) && Merged(docs)[f] == m;
  }

  // --- The bound over mixed runs -------------------------------------------------------------

  datatype Change = Observed(obs: Doc, reason: string) | Enveloped(docs: seq<Doc>, reason: string)

  ghost function Changed(base: Doc, c: Change): Doc {
    match c
    case Observed(obs, reason) => Update(Some(base), obs, reason).1.value
    case Enveloped(docs, reason) => EnvelopeOf(Some(base), docs, reason).1.value
  }

  ghost function AllChanges(base: Doc, changes: seq<Change>): Doc
    decreases |changes|
  {
    if changes == [] then base else AllChanges(Changed(base, changes[0]), changes[1..])
  }

  /** The exemption list that a change would store. */
  ghost predicate Exempts(c: Change, e: Exempt) {
    match c
    case Observed(obs, _) => obs.unstable == e
    case Enveloped(docs, _) => docs != [] ==> docs[|docs| - 1].unstable == e
  }

  /** What history entries allow: accepted growth adds its delta, and an envelope starts over from its regions. */
  function Allowance(start: int, entries: seq<Entry>): int {
    if entries == [] then start
    else
      match entries[|entries| - 1]
      case Accepted(_, _, delta) => Allowance(start, entries[..|entries| - 1]) + delta
      case Envelope(_, _, regions, _) => regions
  }

  lemma {:induction false} AllowanceGrows(a: int, b: int, entries: seq<Entry>)
    requires a <= b
    ensures Allowance(a, entries) <= Allowance(b, entries)
  {
    if entries != [] {
      AllowanceGrows(a, b, entries[..|entries| - 1]);
    }
  }

  lemma {:induction false} AllowanceSplits(start: int, xs: seq<Entry>, ys: seq<Entry>)
    ensures Allowance(start, xs + ys) == Allowance(Allowance(start, xs), ys)
    decreases |ys|
  {
    if ys == [] {
      assert xs + ys == xs;
    } else {
      var n := |ys| - 1;
      assert (xs + ys)[..|xs + ys| - 1] == xs + ys[..n] && (xs + ys)[|xs + ys| - 1] == ys[n];
      AllowanceSplits(start, xs, ys[..n]);
    }
  }

  /** Exempting symbols only lowers a total. */
  lemma {:induction false} HeldIsPart(e: Exempt, m: Counts)
    ensures HeldTotal(e, m) <= Sum(m)
  {
    var held := HeldCounts(e, m);
    SumIgnoresMissing(m.Keys, held);
    SumBelow(m.Keys, held, m);
  }

  lemma {:induction false} SumBelow(keys: set<Symbol>, a: map<Symbol, int>, b: map<Symbol, int>)
    requires forall k :: k in keys ==> Get(a, k) <= Get(b, k)
    ensures SumOver(keys, a) <= SumOver(keys, b)
    decreases |keys|
  {
    if keys != {} {
      var k :| k in keys;
      SumTakes(keys, a, k);
      SumTakes(keys, b, k);
      SumBelow(keys - {k}, a, b);
    }
  }

  /** One change: the history only grows, the list stays, and the held total is within what the new entries allow. */
  lemma {:induction false} ChangeAccounts(base: Doc, c: Change)
    requires Exempts(c, base.unstable)
    ensures var after := Changed(base, c);
            && after.unstable == base.unstable && base.history <= after.history
            && HeldTotal(base.unstable, after.symbols)
               <= Allowance(HeldTotal(base.unstable, base.symbols), after.history[|base.history|..])
  {
    hide HeldTotal, Merged, Sum;
    var after := Changed(base, c);
    match c
    case Observed(obs, reason) =>
      OneUpdate(base, obs, reason);
    case Enveloped(docs, reason) =>
      if after != base {
        HeldIsPart(base.unstable, Merged(docs));
        var entry := after.history[|after.history| - 1];
        assert after.history == base.history + [entry];
        assert after.history[|base.history|..] == [entry];
      } else {
        assert after.history[|base.history|..] == [];
      }
  }

  lemma {:induction false} OneUpdate(base: Doc, obs: Doc, reason: string)
    requires obs.unstable == base.unstable
    ensures var after := Update(Some(base), obs, reason).1.value;
            && after.unstable == base.unstable && base.history <= after.history
            && HeldTotal(base.unstable, after.symbols)
               <= Allowance(HeldTotal(base.unstable, base.symbols), after.history[|base.history|..])
  {
    hide HeldTotal;
    UpdateAccounts(base, obs, reason);
    var after := Update(Some(base), obs, reason).1.value;
    var more := after.history[|base.history|..];
    if after.history == base.history {
      assert more == [];
    } else {
      var entry := EntryFor(Compare(base, obs), reason);
      assert after.history == base.history + [entry];
      assert more == [entry] && more[..0] == [];
      assert (base.history + [entry])[..|base.history|] == base.history;
    }
  }

  /** Over any run of updates and envelopes under one exemption list, the held regions stay within what the history allows. */
  lemma {:induction false} MixedRunsAreBounded(base: Doc, changes: seq<Change>)
    requires forall i :: 0 <= i < |changes| ==> Exempts(changes[i], base.unstable)
    ensures var after := AllChanges(base, changes);
            && after.unstable == base.unstable && base.history <= after.history
            && HeldTotal(base.unstable, after.symbols)
               <= Allowance(HeldTotal(base.unstable, base.symbols), after.history[|base.history|..])
    decreases |changes|
  {
    hide Changed, HeldTotal, Exempts, Allowance;
    if changes == [] {
      assert base.history[|base.history|..] == [];
      NothingAllowed(HeldTotal(base.unstable, base.symbols));
    } else {
      var next := Changed(base, changes[0]);
      ChangeAccounts(base, changes[0]);
      MixedRunsAreBounded(next, changes[1..]);
      var after := AllChanges(base, changes);
      var start, xs, ys := HeldTotal(base.unstable, base.symbols), next.history[|base.history|..], after.history[|next.history|..];
      AllowanceGrows(HeldTotal(base.unstable, next.symbols), Allowance(start, xs), ys);
      AllowanceSplits(start, xs, ys);
      assert after.history[|base.history|..] == xs + ys;
    }
  }

  lemma {:induction false} NothingAllowed(start: int)
    ensures Allowance(start, []) == start
  {
  }

  /** The bound of updates alone, by recorded deltas, survives a stored envelope exactly when its held total is no larger. */
  lemma {:induction false} EnvelopeKeepsDeltasExactly(base: Doc, docs: seq<Doc>, reason: string)
    requires EnvelopeOf(Some(base), docs, reason).0 == Pass
    ensures var after := EnvelopeOf(Some(base), docs, reason).1.value;
            var was := HeldTotal(base.unstable, base.symbols);
            (HeldTotal(base.unstable, after.symbols) <= was + Deltas(after.history) - Deltas(base.history))
            <==> HeldTotal(base.unstable, Merged(docs)) <= was
  {
    hide HeldTotal, Merged, Sum;
    var after := EnvelopeOf(Some(base), docs, reason).1.value;
    var n := |after.history| - 1;
    assert after.history[..n] == base.history;
  }
}
