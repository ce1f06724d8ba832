/**
 The process-global store registry of bindings/go/url.go: a reference-counted map whose
 lookup, open and registration are separate critical sections, run by any number of callers
 in any interleaving. Opening a store succeeds or fails as the schedule says.
 */
module Registry {
  type Key = string
  type StoreId = nat
  type Caller = nat

  datatype Target = MemAnon | MemNamed(name: string) | FileAt(path: string)

  /** registryKey: the map key of a shared target, "" for an unshared one. */
  function RegistryKey(t: Target): Key {
    match t
    case MemAnon => ""
    case MemNamed(name) => "mem://" + name
    case FileAt(path) => "file://" + path
  }

  /** Two targets share a store exactly when they are the same shared target. */
  lemma {:induction false} KeysIdentifyTargets(t: Target, u: Target)
    ensures RegistryKey(t) == RegistryKey(u) <==> t == u
    ensures RegistryKey(t) == "" <==> t.MemAnon?
  {
    if t.MemNamed? && u.MemNamed? {
      assert RegistryKey(t)[6..] == t.name && RegistryKey(u)[6..] == u.name;
    } else if t.FileAt? && u.FileAt? {
      assert RegistryKey(t)[7..] == t.path && RegistryKey(u)[7..] == u.path;
    } else if t != u {
      assert t.MemNamed? ==> RegistryKey(t)[0] == 'm';
      assert t.FileAt? ==> RegistryKey(t)[0] == 'f';
      assert u.MemNamed? ==> RegistryKey(u)[0] == 'm';
      assert u.FileAt? ==> RegistryKey(u)[0] == 'f';
    }
  }

  datatype Shared = Shared(db: StoreId, refs: int)

  /** The map, and how often each opened store was closed; a store's id is its place in closes. */
  datatype Table = Table(m: map<Key, Shared>, closes: seq<nat>) {
    predicate Has(db: StoreId) {
      db < |closes|
    }

    predicate Open(db: StoreId) {
      Has(db) && closes[db] == 0
    }

    function Close(db: StoreId): Table
      requires Has(db)
    {
      this.(closes := closes[db := closes[db] + 1])
    }

    function AddRef(key: Key, delta: int): Table
      requires key in m
    {
      this.(m := m[key := m[key].(refs := m[key].refs + delta)])
    }

    /** The first critical section of resolveStore, on a hit. */
    function Share(key: Key): Table
      requires key in m
    {
      AddRef(key, 1)
    }

    function OpenNew(): Table {
      this.(closes := closes + [0])
    }

    /** The second critical section: join the store that won the race, or register db. */
    function Register(key: Key, db: StoreId): Table
      requires Has(db)
    {
      if key in m then AddRef(key, 1).Close(db)
      else this.(m := m[key := Shared(db, 1)])
    }

    /** releaseStore */
    function Release(key: Key, db: StoreId): Table
      requires Has(db) && forall k :: k in m ==> Has(m[k].db)
    {
      if key == "" then Close(db)
      else if key !in m then this
      else if m[key].refs - 1 <= 0 then Close(m[key].db).(m := m - {key})
      else AddRef(key, -1)
    }
  }

  // --- Callers and schedules ------------------------------------------------------

  /** Where a caller is: before its first lock, between the locks, holding a store, or finished. */
  datatype Phase =
    | Entering(key: Key)
    | Missed(key: Key)
    | Opened(key: Key, db: StoreId)
    | Holding(key: Key, db: StoreId)
    | Done

  datatype State = State(table: Table, callers: map<Caller, Phase>)

  datatype Action = Enter(c: Caller, key: Key) | Look(c: Caller) | Open(c: Caller, ok: bool) | Join(c: Caller) | Leave(c: Caller)

  const Initial := State(Table(map[], []), map[])

  ghost predicate Enabled(s: State, a: Action) {
    match a
    case Enter(c, _) => c !in s.callers
    case Look(c) => c in s.callers && s.callers[c].Entering?
    case Open(c, _) => c in s.callers && s.callers[c].Missed?
    case Join(c) => c in s.callers && s.callers[c].Opened? && s.table.Has(s.callers[c].db)
    case Leave(c) =>
      && c in s.callers && s.callers[c].Holding? && s.table.Has(s.callers[c].db)
      && forall k :: k in s.table.m ==> s.table.Has(s.table.m[k].db)
  }

  /** One atomic step of one caller. */
  ghost function Apply(s: State, a: Action): State
    requires Enabled(s, a)
  {
    var t := s.table;
    match a
    case Enter(c, key) => s.(callers := s.callers[c := Entering(key)])
    case Look(c) =>
      var key := s.callers[c].key;
      if key != "" && key in t.m then State(t.Share(key), s.callers[c := Holding(key, t.m[key].db)])
      else s.(callers := s.callers[c := Missed(key)])
    case Open(c, ok) =>
      var key, db := s.callers[c].key, |t.closes|;
      if !ok then s.(callers := s.callers[c := Done])
      else State(t.OpenNew(), s.callers[c := if key == "" then Holding("", db) else Opened(key, db)])
    case Join(c) =>
      var key, db := s.callers[c].key, s.callers[c].db;
      State(t.Register(key, db), s.callers[c := Holding(key, if key in t.m then t.m[key].db else db)])
    case Leave(c) =>
      State(t.Release(s.callers[c].key, s.callers[c].db), s.callers[c := Done])
  }

  /** A schedule: any steps of any callers, skipping those that are not enabled. */
  ghost function Execute(schedule: seq<Action>): State
    decreases |schedule|
  {
    if schedule == [] then Initial
    else
      Next(Execute(schedule[..|schedule| - 1]), schedule[|schedule| - 1])
  }

  /** The step, if it is enabled. */
  ghost function Next(s: State, a: Action): State {
    if Enabled(s, a) then Apply(s, a) else s
  }

  // --- The invariant ----------------------------------------------------------------

  predicate Holds(s: State, c: Caller, key: Key) {
    c in s.callers && s.callers[c].Holding? && s.callers[c].key == key
  }

  function Holders(s: State, key: Key): set<Caller> {
    set c | c in s.callers && Holds(s, c, key)
  }

  /** A store that only its caller knows: opened and not registered, or anonymous. */
  predicate Private(s: State, c: Caller, db: StoreId) {
    && c in s.callers
    && (s.callers[c].Opened? || (s.callers[c].Holding? && s.callers[c].key == ""))
    && s.callers[c].db == db
  }

  predicate Registered(s: State, key: Key, db: StoreId) {
    key in s.table.m && s.table.m[key].db == db
  }

  ghost predicate CountsAgree(s: State) {
    forall key :: key in s.table.m ==>
      key != "" && s.table.m[key].refs == |Holders(s, key)| && s.table.m[key].refs >= 1
  }

  ghost predicate HoldersAgree(s: State) {
    forall c, key :: key != "" && Holds(s, c, key) ==> Registered(s, key, s.callers[c].db)
  }

  ghost predicate KeysShared(s: State) {
    forall c :: c in s.callers && s.callers[c].Opened? ==> s.callers[c].key != ""
  }

  ghost predicate OwnedAreOpen(s: State) {
    && (forall key :: key in s.table.m ==> s.table.Open(s.table.m[key].db))
    && (forall c, db :: Private(s, c, db) ==> s.table.Open(db))
  }

  ghost predicate OneOwner(s: State) {
    && (forall k, k', db :: Registered(s, k, db) && Registered(s, k', db) ==> k == k')
    && (forall c, c', db :: Private(s, c, db) && Private(s, c', db) ==> c == c')
    && (forall k, c, db :: Registered(s, k, db) ==> !Private(s, c, db))
  }

  ghost predicate Owned(s: State, db: StoreId) {
    (exists k :: Registered(s, k, db)) || (exists c :: Private(s, c, db))
  }

  ghost predicate ClosedOnceOrOwned(s: State) {
    forall db :: 0 <= db < |s.table.closes| ==> s.table.closes[db] <= 1 && (s.table.closes[db] == 0 ==> Owned(s, db))
  }

  ghost predicate Inv(s: State) {
    CountsAgree(s) && HoldersAgree(s) && KeysShared(s) && OwnedAreOpen(s) && OneOwner(s) && ClosedOnceOrOwned(s)
  }

  // --- Every step keeps it ------------------------------------------------------------

  /** Moving one caller changes the holders of the key it gains or loses, and no others. */
  lemma {:induction false} HoldersAfter(s: State, s': State, c: Caller, key: Key)
    requires c in s'.callers && s'.callers == s.callers[c := s'.callers[c]]
    ensures Holds(s, c, key) == Holds(s', c, key) ==> Holders(s', key) == Holders(s, key)
    ensures !Holds(s, c, key) && Holds(s', c, key) ==> |Holders(s', key)| == |Holders(s, key)| + 1
    ensures Holds(s, c, key) && !Holds(s', c, key) ==> |Holders(s', key)| == |Holders(s, key)| - 1
  {
    assert forall d :: d != c ==> Holds(s', d, key) == Holds(s, d, key);
    if Holds(s, c, key) == Holds(s', c, key) {
      assert Holders(s', key) == Holders(s, key);
    } else if Holds(s', c, key) {
      assert Holders(s', key) == Holders(s, key) + {c};
    } else {
      assert Holders(s', key) == Holders(s, key) - {c};
    }
  }

  lemma {:induction false} CountsAfter(s: State, a: Action)
    requires Inv(s) && Enabled(s, a)
    ensures CountsAgree(Apply(s, a))
  {
    var s' := Apply(s, a);
    forall key | key in s'.table.m
      ensures key != "" && s'.table.m[key].refs == |Holders(s', key)| && s'.table.m[key].refs >= 1
    {
      HoldersAfter(s, s', a.c, key);
      if key !in s.table.m {
        assert forall d :: !Holds(s, d, key);
        assert Holders(s, key) == {};
      }
    }
  }

  lemma {:induction false} HoldersAgreeAfter(s: State, a: Action)
    requires Inv(s) && Enabled(s, a)
    ensures HoldersAgree(Apply(s, a)) && KeysShared(Apply(s, a))
  {
    var s' := Apply(s, a);
    forall d, key | key != "" && Holds(s', d, key)
      ensures Registered(s', key, s'.callers[d].db)
    {
      if d != a.c {
        assert Holds(s, d, key);
        if a.Leave? && s.callers[a.c].key == key && key !in s'.table.m {
          assert {a.c, d} <= Holders(s, key);
          assert |{a.c, d}| == 2;
          CardinalityMonotone({a.c, d}, Holders(s, key));
        }
      }
    }
  }

  lemma {:induction false} CardinalityMonotone(a: set<Caller>, b: set<Caller>)
    requires a <= b
    ensures |a| <= |b|
  {
    assert b == a + (b - a);
  }

  /** A private store was private before, or has just been opened. */
  lemma {:induction false} PrivateBefore(s: State, a: Action, d: Caller, db: StoreId)
    requires Inv(s) && Enabled(s, a) && Private(Apply(s, a), d, db)
    ensures if a.Open? && d == a.c then db == |s.table.closes| else Private(s, d, db) && !(a.Join? && d == a.c)
  {
  }

  /** A registered store was registered before, or has just been registered by its opener. */
  lemma {:induction false} RegisteredBefore(s: State, a: Action, key: Key, db: StoreId)
    requires Inv(s) && Enabled(s, a) && Registered(Apply(s, a), key, db)
    ensures Registered(s, key, db) || (a.Join? && s.callers[a.c].key == key && Private(s, a.c, db) && key !in s.table.m)
  {
  }

  /** The store that the step closes, if any, was open and has no owner afterwards. */
  lemma {:induction false} ClosedByStep(s: State, a: Action, db: StoreId)
    requires Inv(s) && Enabled(s, a) && db < |s.table.closes|
    requires Apply(s, a).table.closes[db] != s.table.closes[db]
    ensures var s' := Apply(s, a);
            && s.table.Open(db) && s'.table.closes[db] == 1
            && (forall d :: !Private(s', d, db)) && (forall k :: !Registered(s', k, db))
  {
    var s' := Apply(s, a);
    var key := s.callers[a.c].key;
    if a.Join? || key == "" {
      assert Private(s, a.c, db);
    } else {
      assert Holds(s, a.c, key);
      assert Registered(s, key, db);
    }
    forall d
      ensures !Private(s', d, db)
    {
      if Private(s', d, db) {
        PrivateBefore(s, a, d, db);
      }
    }
    forall k
      ensures !Registered(s', k, db)
    {
      if Registered(s', k, db) {
        RegisteredBefore(s, a, k, db);
      }
    }
  }

  lemma {:induction false} OwnedOpenAfter(s: State, a: Action)
    requires Inv(s) && Enabled(s, a)
    ensures OwnedAreOpen(Apply(s, a))
  {
    var s' := Apply(s, a);
    forall d, db: StoreId | Private(s', d, db)
      ensures s'.table.Open(db)
    {
      PrivateBefore(s, a, d, db);
      if db < |s.table.closes| && s'.table.closes[db] != s.table.closes[db] {
        ClosedByStep(s, a, db);
      }
    }
    forall key | key in s'.table.m
      ensures s'.table.Open(s'.table.m[key].db)
    {
      var db := s'.table.m[key].db;
      assert Registered(s', key, db);
      RegisteredBefore(s, a, key, db);
      if s'.table.closes[db] != s.table.closes[db] {
        ClosedByStep(s, a, db);
      }
    }
  }

  lemma {:induction false} OneOwnerAfter(s: State, a: Action)
    requires Inv(s) && Enabled(s, a)
    ensures OneOwner(Apply(s, a))
  {
    hide Apply;
    var s' := Apply(s, a);
    forall k, l, db | Registered(s', k, db) && Registered(s', l, db)
      ensures k == l
    {
      RegisteredBefore(s, a, k, db);
      RegisteredBefore(s, a, l, db);
    }
    forall c, d, db | Private(s', c, db) && Private(s', d, db)
      ensures c == d
    {
      PrivateBefore(s, a, c, db);
      PrivateBefore(s, a, d, db);
    }
    forall k, c, db | Registered(s', k, db)
      ensures !Private(s', c, db)
    {
      RegisteredBefore(s, a, k, db);
      if Private(s', c, db) {
        PrivateBefore(s, a, c, db);
      }
    }
  }

  lemma {:induction false} ConservationAfter(s: State, a: Action)
    requires Inv(s) && Enabled(s, a)
    ensures ClosedOnceOrOwned(Apply(s, a))
  {
    var s' := Apply(s, a);
    forall db | 0 <= db < |s'.table.closes|
      ensures s'.table.closes[db] <= 1 && (s'.table.closes[db] == 0 ==> Owned(s', db))
    {
      if db == |s.table.closes| {
        assert Private(s', a.c, db);
      } else if s'.table.closes[db] != s.table.closes[db] {
        ClosedByStep(s, a, db);
      } else if s'.table.closes[db] == 0 {
        OwnerAfter(s, a, db);
      }
    }
  }

  lemma {:induction false} OwnerAfter(s: State, a: Action, db: StoreId)
    requires Inv(s) && Enabled(s, a) && db < |s.table.closes| && Apply(s, a).table.closes[db] == 0
    ensures Owned(Apply(s, a), db)
  {
    var s' := Apply(s, a);
    if k :| Registered(s, k, db) {
      assert Registered(s', k, db);
    } else {
      assert s.table.closes[db] == 0;
      var d :| Private(s, d, db);
      if d == a.c && a.Join? {
        assert Registered(s', s.callers[d].key, db);
      } else {
        assert Private(s', d, db);
      }
    }
  }

  lemma {:induction false} StepKeepsInv(s: State, a: Action)
    requires Inv(s) && Enabled(s, a)
    ensures Inv(Apply(s, a))
  {
    hide Apply;
    CountsAfter(s, a);
    HoldersAgreeAfter(s, a);
    OwnedOpenAfter(s, a);
    OneOwnerAfter(s, a);
    ConservationAfter(s, a);
  }

  lemma {:induction false} EveryScheduleKeepsInv(schedule: seq<Action>)
    ensures Inv(Execute(schedule))
    decreases |schedule|
  {
    hide Apply, Enabled, Inv;
    if schedule == [] {
      InitialInv();
    } else {
      var s := Execute(schedule[..|schedule| - 1]);
      EveryScheduleKeepsInv(schedule[..|schedule| - 1]);
      var a := schedule[|schedule| - 1];
      if Enabled(s, a) {
        StepKeepsInv(s, a);
      }
    }
  }

  lemma {:induction false} InitialInv()
    ensures Inv(Initial)
  {
  }

  // --- What callers may rely on ---------------------------------------------------------

  /**
   Safety, under every interleaving: a key's count is its number of holders, all holders of a
   key hold the one registered store, and no held store has been closed.
   */
  lemma {:induction false} RegistrySafety(schedule: seq<Action>)
    ensures var s := Execute(schedule);
            && (forall key :: key in s.table.m ==> s.table.m[key].refs == |Holders(s, key)|)
            && (forall c, key :: key != "" && Holds(s, c, key) ==>
                  key in s.table.m && s.table.m[key].db == s.callers[c].db)
            && (forall c, key :: Holds(s, c, key) ==> s.table.Open(s.callers[c].db))
  {
    hide Execute;
    var s := Execute(schedule);
    EveryScheduleKeepsInv(schedule);
    forall c, key | Holds(s, c, key)
      ensures s.table.Open(s.callers[c].db)
    {
      if key == "" {
        assert Private(s, c, s.callers[c].db);
      }
    }
  }

  /** Two holders hold the same store exactly when they asked for the same shared key. */
  lemma {:induction false} HoldersShareByKey(schedule: seq<Action>, c: Caller, d: Caller)
    requires c != d && c in Execute(schedule).callers && Execute(schedule).callers[c].Holding?
    requires d in Execute(schedule).callers && Execute(schedule).callers[d].Holding?
    ensures var s := Execute(schedule);
            s.callers[c].db == s.callers[d].db <==> s.callers[c].key == s.callers[d].key != ""
  {
    hide Execute;
    var s := Execute(schedule);
    EveryScheduleKeepsInv(schedule);
    var k, l := s.callers[c].key, s.callers[d].key;
    assert Holds(s, c, k) && Holds(s, d, l);
    assert k == "" ==> Private(s, c, s.callers[c].db);
    assert l == "" ==> Private(s, d, s.callers[d].db);
  }

  /** No caller is ever stuck: the step of its phase is always possible. */
  lemma {:induction false} CallersAreNeverStuck(schedule: seq<Action>, c: Caller)
    requires c in Execute(schedule).callers && !Execute(schedule).callers[c].Done?
    ensures var s := Execute(schedule);
            match s.callers[c]
            case Entering(_) => Enabled(s, Look(c))
            case Missed(_) => Enabled(s, Open(c, true))
            case Opened(_, _) => Enabled(s, Join(c))
            case Holding(_, _) => Enabled(s, Leave(c))
            case Done => true
  {
    hide Execute;
    var s := Execute(schedule);
    EveryScheduleKeepsInv(schedule);
    if s.callers[c].Opened? {
      assert Private(s, c, s.callers[c].db);
    } else if s.callers[c].Holding? {
      RegistrySafety(schedule);
      assert Holds(s, c, s.callers[c].key);
    }
  }

  /**
   Conservation: no store is ever closed twice, and once every caller has finished the map is
   empty and every store that was opened has been closed exactly once.
   */
  lemma {:induction false} RegistryConservation(schedule: seq<Action>)
    ensures var s := Execute(schedule);
            && (forall db :: 0 <= db < |s.table.closes| ==> s.table.closes[db] <= 1)
            && ((forall c :: c in s.callers ==> s.callers[c].Done?) ==>
                  s.table.m == map[] && forall db :: 0 <= db < |s.table.closes| ==> s.table.closes[db] == 1)
  {
    hide Execute;
    var s := Execute(schedule);
    EveryScheduleKeepsInv(schedule);
    if forall c :: c in s.callers ==> s.callers[c].Done? {
      forall key
        ensures key !in s.table.m
      {
        assert Holders(s, key) == {};
      }
      forall db | 0 <= db < |s.table.closes|
        ensures s.table.closes[db] == 1
      {
        assert !Owned(s, db);
      }
    }
  }

  // --- The registry as the source keeps it --------------------------------------------------

  lemma {:induction false} KeyIsHeld(s: State, key: Key)
    requires Inv(s)
    ensures key in s.table.m <==> key != "" && Holders(s, key) != {}
  {
    if key in s.table.m {
      assert |Holders(s, key)| >= 1;
    } else if key != "" {
      assert forall c :: !Holds(s, c, key);
    }
  }

  /** c holds db, which is open, under key; and so does every holder of a shared key. */
  ghost predicate Sharing(s: State, c: Caller, key: Key, db: StoreId) {
    && Holds(s, c, key) && s.callers[c].db == db && s.table.Open(db)
    && (key != "" ==> forall d :: Holds(s, d, key) ==> s.callers[d].db == db)
  }

  lemma {:induction false} HolderShares(s: State, c: Caller)
    requires Inv(s) && c in s.callers && s.callers[c].Holding?
    ensures Sharing(s, c, s.callers[c].key, s.callers[c].db)
  {
    var key, db := s.callers[c].key, s.callers[c].db;
    assert Holds(s, c, key);
    if key == "" {
      assert Private(s, c, db);
    } else {
      assert Registered(s, key, db);
    }
  }

  /** Nobody but c can reach db. */
  ghost predicate Alone(s: State, c: Caller, db: StoreId) {
    && Private(s, c, db) && s.table.Open(db) && (forall k :: !Registered(s, k, db))
    && forall d, k :: Holds(s, d, k) && s.callers[d].db == db ==> d == c
  }

  lemma {:induction false} PrivateIsAlone(s: State, c: Caller, db: StoreId)
    requires Inv(s) && Private(s, c, db)
    ensures Alone(s, c, db)
  {
    assert forall d, k :: k != "" && Holds(s, d, k) ==> Registered(s, k, s.callers[d].db);
    forall d, k | Holds(s, d, k) && s.callers[d].db == db
      ensures d == c
    {
      assert Private(s, d, db);
    }
  }

  /** A holder can always leave; the last release of a key closes its store, and no other release does. */
  lemma {:induction false} ReleaseClosesLast(s: State, c: Caller)
    requires Inv(s) && c in s.callers && s.callers[c].Holding?
    ensures var key, db, after := s.callers[c].key, s.callers[c].db, Next(s, Leave(c));
            && Inv(after) && Enabled(s, Leave(c)) && after.table.Has(db)
            && (after.table.Open(db) <==> key != "" && Holders(s, key) != {c})
            && (key != "" ==> Registered(s, key, db))
            && after == State(s.table.Release(key, db), s.callers[c := Done])
  {
    var key, db := s.callers[c].key, s.callers[c].db;
    HolderShares(s, c);
    var held := Holders(s, key);
    assert c in held;
    if key != "" {
      assert Registered(s, key, db);
      assert held == {c} + (held - {c});
    }
    assert Enabled(s, Leave(c));
    StepKeepsInv(s, Leave(c));
  }

  /** Joining ends with the store that everybody holds, and closes the caller's own if that is another. */
  lemma {:induction false} JoinSettles(s: State, c: Caller)
    requires Inv(s) && c in s.callers && s.callers[c].Opened?
    ensures var key, mine, after := s.callers[c].key, s.callers[c].db, Next(s, Join(c));
            var db := if key in s.table.m then s.table.m[key].db else mine;
            && Inv(after) && s.table.Has(mine)
            && after == State(s.table.Register(key, mine), s.callers[c := Holding(key, db)])
            && Sharing(after, c, key, db)
            && (db == mine <==> Holders(s, key) == {})
            && (after.table.Open(mine) <==> db == mine)
  {
    var key, mine, after := s.callers[c].key, s.callers[c].db, Next(s, Join(c));
    assert key != "";
    assert Private(s, c, mine);
    PrivateIsAlone(s, c, mine);
    assert key in s.table.m ==> !Registered(s, key, mine);
    KeyIsHeld(s, key);
    assert Enabled(s, Join(c));
    StepKeepsInv(s, Join(c));
    HolderShares(after, c);
  }

  /**
   The registry's map and stores, with the callers that use them. Each method is one critical section,
   or the open between two; other callers' steps may come between any two calls.
   */
  class SharedRegistry {
    var m: map<Key, Shared>
    var closes: seq<nat>
    ghost var callers: map<Caller, Phase>

    ghost function Now(): State
      reads this
    {
      State(Table(m, closes), callers)
    }

    ghost predicate Valid()
      reads this
    {
      Inv(Now())
    }

    constructor ()
      ensures Valid() && Now() == Initial
    {
      m, closes, callers := map[], [], map[];
      new;
      InitialInv();
    }

    /** A caller asks for a key. */
    ghost method Arrive(c: Caller, key: Key)
      requires Valid() && c !in callers
      modifies this`callers
      ensures Valid() && Now() == Next(old(Now()), Enter(c, key))
    {
      StepKeepsInv(Now(), Enter(c, key));
      callers := callers[c := Entering(key)];
    }

    /** resolveStore, first lock: a hit exactly when somebody holds the key, and then of the store they hold. */
    method Lookup(key: Key, ghost c: Caller) returns (hit: bool, db: StoreId)
      requires Valid() && c in callers && callers[c] == Entering(key)
      modifies this
      ensures Valid() && Now() == Next(old(Now()), Look(c))
      ensures hit <==> key != "" && Holders(old(Now()), key) != {}
      ensures hit ==> Sharing(Now(), c, key, db)
      ensures !hit ==> callers[c] == Missed(key) && m == old(m) && closes == old(closes)
    {
      hide Inv;
      KeyIsHeld(Now(), key);
      StepKeepsInv(Now(), Look(c));
      hit, db := false, 0;
      if key != "" && key in m {
        var s := m[key];
        m := m[key := s.(refs := s.refs + 1)];
        hit, db := true, s.db;
        callers := callers[c := Holding(key, db)];
        HolderShares(Now(), c);
      } else {
        callers := callers[c := Missed(key)];
      }
    }

    /** openEmbedded: a new store that only this caller can reach, or an error and nothing. */
    method OpenStore(ok: bool, ghost c: Caller) returns (db: StoreId)
      requires Valid() && c in callers && callers[c].Missed?
      modifies this
      ensures Valid() && Now() == Next(old(Now()), Action.Open(c, ok))
      ensures ok ==> Alone(Now(), c, db) && db == |old(closes)|
      ensures !ok ==> callers[c] == Done && m == old(m) && closes == old(closes)
    {
      hide Inv;
      StepKeepsInv(Now(), Action.Open(c, ok));
      ghost var key := callers[c].key;
      db := |closes|;
      if ok {
        closes := closes + [0];
        callers := callers[c := if key == "" then Holding("", db) else Opened(key, db)];
        PrivateIsAlone(Now(), c, db);
      } else {
        callers := callers[c := Done];
      }
    }

    /** resolveStore, second lock: the caller ends up with the store that everybody holds, and its own is closed if that is another. */
    method Register(key: Key, mine: StoreId, ghost c: Caller) returns (db: StoreId)
      requires Valid() && c in callers && callers[c] == Opened(key, mine)
      modifies this
      ensures Valid() && Now() == Next(old(Now()), Join(c))
      ensures Sharing(Now(), c, key, db)
      ensures db == mine <==> Holders(old(Now()), key) == {}
      ensures mine < |closes| && (closes[mine] == 0 <==> db == mine)
    {
      ghost var after := Next(Now(), Join(c));
      JoinSettles(Now(), c);
      hide Inv, Next, Holders, Sharing, Table.Register;
      db := JoinOrAdd(key, mine);
      callers := callers[c := Holding(key, db)];
      assert Now() == after;
    }

    method JoinOrAdd(key: Key, mine: StoreId) returns (db: StoreId)
      requires mine < |closes|
      modifies this`m, this`closes
      ensures Table(m, closes) == old(Table(m, closes)).Register(key, mine)
      ensures db == if key in old(m) then old(m)[key].db else mine
    {
      if key in m {
        var s := m[key];
        m := m[key := s.(refs := s.refs + 1)];
        closes := closes[mine := closes[mine] + 1];
        return s.db;
      }
      m := m[key := Shared(mine, 1)];
      return mine;
    }

    /** releaseStore: the store is closed exactly when it was anonymous or nobody else holds the key. */
    method Release(key: Key, db: StoreId, ghost c: Caller)
      requires Valid() && c in callers && callers[c] == Holding(key, db)
      modifies this
      ensures Valid() && Now() == Next(old(Now()), Leave(c))
      ensures db < |closes| && (closes[db] == 0 <==> key != "" && Holders(old(Now()), key) != {c})
    {
      ghost var after := Next(Now(), Leave(c));
      ReleaseClosesLast(Now(), c);
      hide Inv, Next, Holders, Registered, Table.Release;
      DropRef(key, db);
      callers := callers[c := Done];
      assert Now() == after;
    }

    method DropRef(key: Key, db: StoreId)
      requires db < |closes| && forall k :: k in m ==> m[k].db < |closes|
      modifies this`m, this`closes
      ensures Table(m, closes) == old(Table(m, closes)).Release(key, db)
    {
      if key == "" {
        closes := closes[db := closes[db] + 1];
        return;
      }
      if key !in m {
        return;
      }
      var s := m[key];
      m := m[key := s.(refs := s.refs - 1)];
      if s.refs - 1 <= 0 {
        closes := closes[s.db := closes[s.db] + 1];
        m := m - {key};
        assert m == old(m) - {key};
      }
    }
  }
}
