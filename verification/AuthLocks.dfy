/**
  The per-key load locks of the device authorization cache (`get_or_load_many` in session/src/gb/sip/auth.rs):
  any number of callers, each taking the locks of its missing keys in ascending order, while other code may
  replace lock objects at any time.
*/
module AuthLocks {
  import opened Wrappers
  import opened SortedKeys

  /** A cache key by its place in the key order. */
  type Key = nat

  /** A lock object; each one was made for one key. */
  datatype Lock = Lock(key: Key, serial: nat)

  /** A caller: the keys it found missing, sorted; the locks it holds, one for each key before `|held|`; and
      the lock object it has looked up and waits for. */
  datatype Caller = Caller(keys: seq<Key>, held: seq<Lock>, waiting: Option<Lock>)

  datatype World = World(callers: seq<Caller>, table: map<Key, Lock>, serial: nat)

  datatype Event =
    | Start(caller: nat, missing: set<Key>)
    | Fetch(caller: nat)      // look up or create the lock object of the next key
    | Acquire(caller: nat)    // the lock is granted
    | Finish(caller: nat)     // everything is loaded: all locks are released at once
    | Forget(keys: set<Key>)  // lock objects leave the table: invalidation, cleanup, or after a load

  predicate Holds(w: World, i: nat, l: Lock) {
    i < |w.callers| && l in w.callers[i].held
  }

  predicate IsFree(w: World, l: Lock) {
    forall i :: 0 <= i < |w.callers| ==> l !in w.callers[i].held
  }

  /** The missing keys in the order in which they are locked. */
  ghost function Sorted(keys: set<Key>): (s: seq<Key>)
    ensures Ascending(s) && forall k :: k in s <==> k in keys
  {
    if keys == {} then [] else [MinKey(keys)] + Sorted(keys - {MinKey(keys)})
  }

  // ---------------------------------------------------------------- steps

  ghost predicate Enabled(w: World, e: Event) {
    match e
    case Forget(_) => true
    case Start(i, _) => i < |w.callers| && w.callers[i].held == [] && w.callers[i].waiting.None?
    case Fetch(i) => i < |w.callers| && w.callers[i].waiting.None? && |w.callers[i].held| < |w.callers[i].keys|
    case Acquire(i) => i < |w.callers| && w.callers[i].waiting.Some? && IsFree(w, w.callers[i].waiting.value)
    case Finish(i) => i < |w.callers| && w.callers[i].waiting.None? && |w.callers[i].held| == |w.callers[i].keys|
  }

  /** A step that is not enabled leaves everything as it is. */
  ghost function Step(w: World, e: Event): (w': World)
    ensures |w'.callers| == |w.callers|
  {
    if !Enabled(w, e) then w
    else
      match e
      case Start(i, missing) => w.(callers := w.callers[i := Caller(Sorted(missing), [], None)])
      case Fetch(i) =>
        var c := w.callers[i];
        var key := c.keys[|c.held|];
        var l := if key in w.table then w.table[key] else Lock(key, w.serial);
        World(w.callers[i := c.(waiting := Some(l))], w.table[key := l], w.serial + 1)
      case Acquire(i) =>
        var c := w.callers[i];
        w.(callers := w.callers[i := c.(held := c.held + [c.waiting.value], waiting := None)])
      case Finish(i) => w.(callers := w.callers[i := Caller([], [], None)])
      case Forget(keys) => w.(table := w.table - keys)
  }

  /** `n` idle callers. */
  function Initial(n: nat): World {
    World(seq(n, _ => Caller([], [], None)), map[], 0)
  }

  ghost function RunFrom(w: World, es: seq<Event>): (w': World)
    ensures |w'.callers| == |w.callers|
  {
    if es == [] then w else Step(RunFrom(w, es[..|es| - 1]), es[|es| - 1])
  }

  ghost function Run(n: nat, es: seq<Event>): (w: World)
    ensures |w.callers| == n
  {
    RunFrom(Initial(n), es)
  }

  /** A caller's locks are those of its first keys, in order; the lock it waits for is that of the next key. */
  ghost predicate InOrder(c: Caller) {
    && Ascending(c.keys) && |c.held| <= |c.keys|
    && (forall i :: 0 <= i < |c.held| ==> c.held[i].key == c.keys[i])
    && (c.waiting.Some? ==> |c.held| < |c.keys| && c.waiting.value.key == c.keys[|c.held|])
  }

  ghost predicate AllInOrder(w: World) {
    && (forall i :: 0 <= i < |w.callers| ==> InOrder(w.callers[i]))
    && (forall k :: k in w.table ==> w.table[k].key == k)
  }

  lemma StepKeepsOrder(w: World, e: Event)
    requires AllInOrder(w)
    ensures AllInOrder(Step(w, e))
  {
    hide Ascending, IsFree;
    var w' := Step(w, e);
    forall i | 0 <= i < |w'.callers| ensures InOrder(w'.callers[i]) {
      assert InOrder(w.callers[i]);
      if e.Start? || e.Finish? { EmptyAscends(); }
    }
  }

  lemma EmptyAscends()
    ensures Ascending([])
  {}

  /** The order is kept over every run of any number of callers. */
  lemma {:induction false} RunsStayInOrder(n: nat, es: seq<Event>)
    ensures AllInOrder(Run(n, es))
  {
    hide Ascending, Step, Enabled;
    if es == [] {
      EmptyAscends();
    } else {
      RunsStayInOrder(n, es[..|es| - 1]);
      StepKeepsOrder(Run(n, es[..|es| - 1]), es[|es| - 1]);
    }
  }

  // ---------------------------------------------------------------- no cycle of waiting

  /** Caller `i` waits for a lock that `j` holds. */
  predicate WaitsFor(w: World, i: nat, j: nat) {
    i < |w.callers| && j < |w.callers| && w.callers[i].waiting.Some? && w.callers[i].waiting.value in w.callers[j].held
  }

  /** The key waited for, counted from one; zero for a caller that does not wait. */
  function WaitKey(w: World, i: nat): nat {
    if i < |w.callers| && w.callers[i].waiting.Some? then w.callers[i].waiting.value.key + 1 else 0
  }

  /** A holder that itself waits does so for a strictly greater key. */
  lemma WaitingKeysGrow(w: World, i: nat, j: nat)
    requires AllInOrder(w) && WaitsFor(w, i, j) && w.callers[j].waiting.Some?
    ensures WaitKey(w, i) < WaitKey(w, j)
  {
    assert InOrder(w.callers[j]);
  }

  /** A path in the wait-for graph. */
  ghost predicate WaitPath(w: World, path: seq<nat>) {
    forall k :: 0 <= k < |path| - 1 ==> WaitsFor(w, path[k], path[k + 1])
  }

  lemma {:induction false} PathKeysGrow(w: World, path: seq<nat>, n: nat)
    requires AllInOrder(w) && WaitPath(w, path) && 0 < n < |path| - 1
    ensures WaitKey(w, path[0]) < WaitKey(w, path[n])
  {
    hide AllInOrder;
    assert WaitsFor(w, path[n], path[n + 1]);
    assert WaitsFor(w, path[n - 1], path[n - 1 + 1]);
    WaitingKeysGrow(w, path[n - 1], path[n]);
    if n > 1 {
      PathKeysGrow(w, path, n - 1);
    }
  }

  /** After no run, whatever the key sets and whatever lock objects were replaced meanwhile, do callers wait
      for one another in a circle. */
  lemma NoDeadlock(n: nat, es: seq<Event>, path: seq<nat>)
    requires WaitPath(Run(n, es), path) && |path| >= 2
    ensures path[0] != path[|path| - 1]
  {
    hide AllInOrder, Run, WaitKey;
    var w := Run(n, es);
    RunsStayInOrder(n, es);
    var last := |path| - 2;
    assert WaitsFor(w, path[0], path[0 + 1]);
    assert WaitsFor(w, path[last], path[last + 1]);
    if path[0] == path[|path| - 1] {
      WaitingKeysGrow(w, path[last], path[0]);
      if last > 0 {
        PathKeysGrow(w, path, last);
      }
    }
  }

  predicate Busy(w: World, i: nat) {
    i < |w.callers| && w.callers[i].keys != []
  }

  /** Among the callers up to `n`, one with the greatest waiting key. */
  lemma GreatestWait(w: World, n: nat) returns (i: nat)
    requires 0 < n <= |w.callers|
    ensures i < n && forall j :: 0 <= j < n ==> WaitKey(w, j) <= WaitKey(w, i)
  {
    i := 0;
    for m := 1 to n
      invariant i < m && forall j :: 0 <= j < m ==> WaitKey(w, j) <= WaitKey(w, i)
    {
      if WaitKey(w, m) > WaitKey(w, i) { i := m; }
    }
  }

  /** While any caller is at work, some caller at work can take its next step: acquire, fetch, or finish. */
  lemma SomeoneCanProceed(n: nat, es: seq<Event>, i: nat) returns (e: Event)
    requires Busy(Run(n, es), i)
    ensures Enabled(Run(n, es), e) && (e.Acquire? || e.Fetch? || e.Finish?) && Busy(Run(n, es), e.caller)
  {
    hide AllInOrder, Run, Ascending;
    var w := Run(n, es);
    RunsStayInOrder(n, es);
    var g := GreatestWait(w, |w.callers|);
    var c := g;
    if w.callers[g].waiting.None? {
      assert WaitKey(w, i) <= WaitKey(w, g);
      c := i;
    } else if !IsFree(w, w.callers[g].waiting.value) {
      c :| 0 <= c < |w.callers| && w.callers[g].waiting.value in w.callers[c].held;
      HolderIsAwake(w, g, c);
    }
    NextStep(w, c);
    e := if w.callers[c].waiting.Some? then Acquire(c)
         else if |w.callers[c].held| < |w.callers[c].keys| then Fetch(c) else Finish(c);
  }

  lemma HolderIsAwake(w: World, g: nat, c: nat)
    requires AllInOrder(w) && WaitsFor(w, g, c) && WaitKey(w, c) <= WaitKey(w, g)
    ensures w.callers[c].waiting.None?
  {
    hide AllInOrder;
    if w.callers[c].waiting.Some? {
      WaitingKeysGrow(w, g, c);
    }
  }

  lemma NextStep(w: World, c: nat)
    requires AllInOrder(w) && c < |w.callers| && (w.callers[c].waiting.None? ==> Busy(w, c) || w.callers[c].held != [])
    ensures Busy(w, c) && |w.callers[c].held| <= |w.callers[c].keys|
  {
    hide Ascending;
    assert InOrder(w.callers[c]);
  }

  // ---------------------------------------------------------------- one loader per key

  predicate Uses(c: Caller, l: Lock) {
    l in c.held || c.waiting == Some(l)
  }

  /** At most one caller at a time is loading a key. */
  ghost predicate OneLoader(w: World) {
    forall i: nat, j: nat, l, m :: Holds(w, i, l) && Holds(w, j, m) && l.key == m.key ==> i == j
  }

  /** A lock object is held by one caller at most, and new ones are told apart from all before. */
  ghost predicate Genuine(w: World) {
    && (forall i: nat, j: nat, l :: Holds(w, i, l) && Holds(w, j, l) ==> i == j)
    && (forall i, l :: 0 <= i < |w.callers| && Uses(w.callers[i], l) ==> l.serial < w.serial)
    && (forall k :: k in w.table ==> w.table[k].key == k && w.table[k].serial < w.serial)
  }

  lemma StepStaysGenuine(w: World, e: Event)
    requires Genuine(w)
    ensures Genuine(Step(w, e))
  {
    hide Sorted;
    if Enabled(w, e) {
      var w' := Step(w, e);
      forall i, l | 0 <= i < |w'.callers| && Uses(w'.callers[i], l) ensures l.serial < w'.serial {
        assert Uses(w.callers[i], l) || (e == Fetch(i) && w'.callers[i].waiting == Some(l));
      }
      forall i: nat, j: nat, l | Holds(w', i, l) && Holds(w', j, l) ensures i == j {
        assert Holds(w, i, l) || (e == Acquire(i) && w.callers[i].waiting == Some(l));
        assert Holds(w, j, l) || (e == Acquire(j) && w.callers[j].waiting == Some(l));
      }
    }
  }

  lemma {:induction false} RunsStayGenuine(n: nat, es: seq<Event>)
    ensures Genuine(Run(n, es))
  {
    hide Step;
    if es != [] {
      RunsStayGenuine(n, es[..|es| - 1]);
      StepStaysGenuine(Run(n, es[..|es| - 1]), es[|es| - 1]);
    }
  }

  /** Lock objects are forgotten only when nobody holds or awaits them, as the cleanup and the end of a load
      make sure; an invalidation does not. */
  ghost predicate Careful(w: World, e: Event) {
    e.Forget? ==> forall i, l :: 0 <= i < |w.callers| && Uses(w.callers[i], l) ==> l.key !in e.keys
  }

  ghost predicate AllCareful(w: World, es: seq<Event>) {
    es != [] ==> AllCareful(w, es[..|es| - 1]) && Careful(RunFrom(w, es[..|es| - 1]), es[|es| - 1])
  }

  /** Every lock in use is still the one in the table. */
  ghost predicate AllCurrent(w: World) {
    forall i, l :: 0 <= i < |w.callers| && Uses(w.callers[i], l) ==> l.key in w.table && w.table[l.key] == l
  }

  lemma StepStaysCurrent(w: World, e: Event)
    requires AllCurrent(w) && Genuine(w) && Careful(w, e)
    ensures AllCurrent(Step(w, e))
  {
    hide Sorted;
    if Enabled(w, e) {
      var w' := Step(w, e);
      forall i, l | 0 <= i < |w'.callers| && Uses(w'.callers[i], l) ensures l.key in w'.table && w'.table[l.key] == l {
        assert Uses(w.callers[i], l) || (e == Fetch(i) && w'.callers[i].waiting == Some(l));
      }
    }
  }

  lemma CurrentMeansOneLoader(w: World)
    requires AllCurrent(w) && Genuine(w)
    ensures OneLoader(w)
  {
    forall i: nat, j: nat, l, m | Holds(w, i, l) && Holds(w, j, m) && l.key == m.key ensures i == j {
      assert Uses(w.callers[i], l) && Uses(w.callers[j], m);
    }
  }

  lemma {:induction false} CarefulStaysCurrent(w: World, es: seq<Event>)
    requires AllCurrent(w) && Genuine(w) && AllCareful(w, es)
    ensures AllCurrent(RunFrom(w, es)) && Genuine(RunFrom(w, es))
  {
    hide Step, Careful, AllCurrent, Genuine;
    if es != [] {
      CarefulStaysCurrent(w, es[..|es| - 1]);
      StepStaysCurrent(RunFrom(w, es[..|es| - 1]), es[|es| - 1]);
      StepStaysGenuine(RunFrom(w, es[..|es| - 1]), es[|es| - 1]);
    }
  }

  /** As long as no lock object is forgotten in use, at most one caller at a time is loading a key. */
  lemma OneLoaderPerKey(n: nat, es: seq<Event>)
    requires AllCareful(Initial(n), es)
    ensures OneLoader(Run(n, es))
  {
    hide RunFrom, AllCareful, OneLoader;
    CarefulStaysCurrent(Initial(n), es);
    CurrentMeansOneLoader(Run(n, es));
  }

  // ---------------------------------------------------------------- exactly when loads stay exclusive

  /** Every careful continuation has one loader per key. */
  ghost predicate ExclusiveFrom(w: World) {
    forall more {:trigger RunFrom(w, more)} :: AllCareful(w, more) ==> OneLoader(RunFrom(w, more))
  }

  /** The same world with one more caller, at rest. */
  function WithNewcomer(w: World): World {
    w.(callers := w.callers + [Caller([], [], None)])
  }

  lemma NewcomerChangesLittle(w: World)
    requires Genuine(w) && AllInOrder(w)
    ensures Genuine(WithNewcomer(w)) && AllInOrder(WithNewcomer(w))
  {
    hide Ascending;
    var v := WithNewcomer(w);
    EmptyAscends();
    forall i | 0 <= i < |v.callers| ensures InOrder(v.callers[i]) {}
    forall i: nat, l ensures Holds(v, i, l) ==> Holds(w, i, l) {}
    forall i, l | 0 <= i < |v.callers| && Uses(v.callers[i], l) ensures l.serial < v.serial {
      assert i < |w.callers| && Uses(w.callers[i], l);
    }
  }

  /** Calls keep coming, so count one more caller at rest. From wherever a run has got to, whatever was forgotten
      before: careful forgetting keeps one loader per key from now on if and only if every lock in use is still
      the table's. */
  lemma LoadsStayExclusiveIff(n: nat, es: seq<Event>)
    ensures var w := WithNewcomer(Run(n, es)); ExclusiveFrom(w) <==> AllCurrent(w)
  {
    hide Run, RunFrom, AllCareful, OneLoader, Genuine, AllInOrder;
    var w := WithNewcomer(Run(n, es));
    RunsStayGenuine(n, es);
    RunsStayInOrder(n, es);
    NewcomerChangesLittle(Run(n, es));
    if AllCurrent(w) {
      forall more | AllCareful(w, more) ensures OneLoader(RunFrom(w, more)) {
        CarefulStaysCurrent(w, more);
        CurrentMeansOneLoader(RunFrom(w, more));
      }
    } else {
      var i, l :| 0 <= i < |w.callers| && Uses(w.callers[i], l) && !(l.key in w.table && w.table[l.key] == l);
      StaleLockSpoils(w, i, l);
    }
  }

  ghost predicate Stale(w: World, l: Lock) {
    l.key !in w.table || w.table[l.key] != l
  }

  lemma StaleLockSpoils(w: World, i: nat, l: Lock)
    requires Genuine(w) && AllInOrder(w) && i < |w.callers| && Uses(w.callers[i], l) && Stale(w, l)
    requires |w.callers| > 0 && w.callers[|w.callers| - 1] == Caller([], [], None)
    ensures !ExclusiveFrom(w)
  {
    hide RunFrom, AllCareful, OneLoader, Genuine, AllInOrder, ExclusiveFrom;
    NothingMore(w);
    if l in w.callers[i].held {
      StaleHolderSpoils(w, [], i, l);
    } else if IsFree(w, l) {
      var more := Extend(w, [], Acquire(i));
      StepKeepsOrder(w, Acquire(i));
      StepStaysGenuine(w, Acquire(i));
      StaleHolderSpoils(w, more, i, l);
    } else {
      var j :| 0 <= j < |w.callers| && l in w.callers[j].held;
      StaleHolderSpoils(w, [], j, l);
    }
  }

  /** A holder of a stale lock and a newcomer that asks for the same key. */
  lemma StaleHolderSpoils(w: World, more: seq<Event>, c: nat, l: Lock)
    requires AllCareful(w, more)
    requires var v := RunFrom(w, more);
             && Genuine(v) && AllInOrder(v) && Holds(v, c, l) && Stale(v, l)
             && v.callers[|v.callers| - 1] == Caller([], [], None)
    ensures !ExclusiveFrom(w)
  {
    hide RunFrom, AllCareful, OneLoader, Genuine, AllInOrder, ExclusiveFrom;
    var v := RunFrom(w, more);
    var k, j := l.key, |v.callers| - 1;
    SortedSingleton(k);
    var m1 := Extend(w, more, Start(j, {k}));
    var m2 := Extend(w, m1, Fetch(j));
    var u := RunFrom(w, m2);
    var l' := u.callers[j].waiting.value;
    FetchedIsAnother(v, l, c);
    assert l'.key == k && l' != l && Holds(u, c, l);
    if IsFree(u, l') {
      var m3 := Extend(w, m2, Acquire(j));
      assert Holds(RunFrom(w, m3), j, l') && Holds(RunFrom(w, m3), c, l);
      Spoilt(w, m3, c, j, l, l');
    } else {
      var d :| 0 <= d < |u.callers| && l' in u.callers[d].held;
      assert u.callers[d] == v.callers[d];
      OneLockPerKey(v, c, l, l');
      Spoilt(w, m2, c, d, l, l');
    }
  }

  lemma FetchedIsAnother(v: World, l: Lock, c: nat)
    requires Genuine(v) && AllInOrder(v) && Stale(v, l) && Holds(v, c, l)
    ensures l.key in v.table ==> v.table[l.key] != l && v.table[l.key].key == l.key
    ensures l.key !in v.table ==> Lock(l.key, v.serial) != l
  {
    assert Uses(v.callers[c], l);
  }

  lemma OneLockPerKey(v: World, c: nat, l: Lock, m: Lock)
    requires AllInOrder(v) && Holds(v, c, l) && l.key == m.key && l != m
    ensures m !in v.callers[c].held
  {
    assert InOrder(v.callers[c]);
  }

  lemma Spoilt(w: World, more: seq<Event>, c: nat, d: nat, l: Lock, m: Lock)
    requires AllCareful(w, more) && c != d && l.key == m.key
    requires Holds(RunFrom(w, more), c, l) && Holds(RunFrom(w, more), d, m)
    ensures !ExclusiveFrom(w)
  {
    hide RunFrom, AllCareful;
    assert !OneLoader(RunFrom(w, more));
  }

  /** Forgetting a lock object while it is held lets a second caller lock the same key: the locks do not
      exclude concurrent loads of one key across an invalidation. */
  lemma InvalidationAdmitsTwoLoaders(k: Key)
    ensures exists es, l0, l1 :: Holds(Run(2, es), 0, l0) && Holds(Run(2, es), 1, l1) && l0.key == k == l1.key
              && l0 != l1
  {
    hide RunFrom, AllCareful;
    NothingMore(Initial(2));
    SortedSingleton(k);
    var w, es := Initial(2), [];
    es := Append(w, es, Start(0, {k}));
    es := Append(w, es, Fetch(0));
    es := Append(w, es, Acquire(0));
    es := Append(w, es, Forget({k}));
    es := Append(w, es, Start(1, {k}));
    es := Append(w, es, Fetch(1));
    es := Append(w, es, Acquire(1));
    assert Holds(Run(2, es), 0, Lock(k, 0)) && Holds(Run(2, es), 1, Lock(k, 1));
  }

  lemma NothingMore(w: World)
    ensures RunFrom(w, []) == w && AllCareful(w, [])
  {}

  lemma Append(w: World, es: seq<Event>, e: Event) returns (es': seq<Event>)
    ensures RunFrom(w, es') == Step(RunFrom(w, es), e)
    ensures AllCareful(w, es) && Careful(RunFrom(w, es), e) ==> AllCareful(w, es')
  {
    es' := es + [e];
    assert es'[..|es|] == es;
  }

  lemma Extend(w: World, es: seq<Event>, e: Event) returns (es': seq<Event>)
    requires AllCareful(w, es) && !e.Forget?
    ensures RunFrom(w, es') == Step(RunFrom(w, es), e) && AllCareful(w, es')
  {
    hide Step;
    es' := Append(w, es, e);
  }

  lemma SortedSingleton(k: Key)
    ensures Sorted({k}) == [k]
  {
    assert {k} - {MinKey({k})} == {};
  }

  /** A caller that starts will take the locks of exactly the keys it found missing, in ascending order. */
  lemma StartTakesAll(w: World, i: nat, missing: set<Key>)
    requires Enabled(w, Start(i, missing))
    ensures var c := Step(w, Start(i, missing)).callers[i];
            Ascending(c.keys) && (forall k :: k in c.keys <==> k in missing) && c.held == [] && c.waiting.None?
  {}
}
