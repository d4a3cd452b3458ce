/** GPU slots that come and go over time: simulation, counting, renaming. */
module Trace {
  import opened Wrappers

  // ---------------------------------------------------------------------
  // Transitions and their order
  // ---------------------------------------------------------------------

  /** At `time`, `slot` becomes available (`up`) or stops being available. */
  datatype Transition<T> = Transition(time: real, up: bool, slot: T)

  predicate StrictlySorted(times: seq<real>) {
    forall i, j | 0 <= i < j < |times| :: times[i] < times[j]
  }

  function TimesOf<T(==)>(ts: seq<Transition<T>>): set<real> {
    set x | x in ts :: x.time
  }

  /** The strictly increasing instants of a set of times. */
  ghost predicate Enumerates(times: seq<real>, s: set<real>) {
    StrictlySorted(times) && forall t :: t in times <==> t in s
  }

  /** The transitions at instant `t`, in their original (event index) order. */
  function At<T>(ts: seq<Transition<T>>, t: real): seq<Transition<T>> {
    if ts == [] then []
    else if ts[0].time == t then [ts[0]] + At(ts[1..], t)
    else At(ts[1..], t)
  }

  /** All transitions grouped by instant. */
  function Ordered<T>(times: seq<real>, ts: seq<Transition<T>>): seq<Transition<T>> {
    if times == [] then [] else At(ts, times[0]) + Ordered(times[1..], ts)
  }

  lemma {:induction false} EnumerationUnique(a: seq<real>, b: seq<real>)
    requires StrictlySorted(a) && StrictlySorted(b)
    requires forall t :: t in a <==> t in b
    ensures a == b
  {
    if a == [] {
      assert forall i | 0 <= i < |b| :: b[i] in b;
    } else {
      assert a[0] in a;
      assert b[0] in b;
      assert a[0] == b[0] by {
        var i :| 0 <= i < |b| && b[i] == a[0];
        var j :| 0 <= j < |a| && a[j] == b[0];
      }
      forall t ensures t in a[1..] <==> t in b[1..] {
        TailMembers(a, t);
        TailMembers(b, t);
      }
      EnumerationUnique(a[1..], b[1..]);
    }
  }

  lemma TailMembers(a: seq<real>, t: real)
    requires a != [] && StrictlySorted(a)
    ensures t in a[1..] <==> t in a && t != a[0]
  {
    if t in a && t != a[0] {
      var i :| 0 <= i < |a| && a[i] == t;
      assert a[1..][i - 1] == t;
    }
  }

  /** Inserts a time into a sorted list unless it is there already. */
  function InsertTime(times: seq<real>, t: real): (r: seq<real>)
    requires StrictlySorted(times)
    ensures StrictlySorted(r)
    ensures forall u :: u in r <==> u == t || u in times
  {
    if times == [] || t < times[0] then [t] + times
    else if t == times[0] then times
    else
      var rest := InsertTime(times[1..], t);
      assert forall u :: u in times <==> u == times[0] || u in times[1..];
      assert forall i | 0 <= i < |rest| :: rest[i] in rest;
      [times[0]] + rest
  }

  /** Sorting the distinct values of a list of times. */
  method SortTimes(raw: seq<real>) returns (times: seq<real>)
    ensures StrictlySorted(times) && forall t :: t in times <==> t in raw
  {
    times := [];
    var i := 0;
    while i < |raw|
      invariant 0 <= i <= |raw|
      invariant StrictlySorted(times) && forall t :: t in times <==> t in raw[..i]
    {
      assert raw[..i + 1] == raw[..i] + [raw[i]];
      times := InsertTime(times, raw[i]);
      i := i + 1;
    }
    assert raw[..i] == raw;
  }

  // ---------------------------------------------------------------------
  // Simulation of the slot set
  // ---------------------------------------------------------------------

  /** Applies transitions in order; adding an available slot or removing an
      unavailable one is an error. */
  function Apply<T>(avail: set<T>, ts: seq<Transition<T>>): Option<set<T>>
    decreases |ts|
  {
    if ts == [] then Some(avail)
    else if ts[0].up == (ts[0].slot in avail) then None
    else Apply(if ts[0].up then avail + {ts[0].slot} else avail - {ts[0].slot}, ts[1..])
  }

  /** Capacity after each instant. */
  function Path<T>(avail: set<T>, times: seq<real>, ts: seq<Transition<T>>): Option<seq<int>>
    decreases |times|
  {
    if times == [] then Some([])
    else
      match Apply(avail, At(ts, times[0]))
      case None => None
      case Some(a) =>
        match Path(a, times[1..], ts)
        case None => None
        case Some(rest) => Some([|a|] + rest)
  }

  lemma {:induction false} ApplyConcat<T>(avail: set<T>, a: seq<Transition<T>>, b: seq<Transition<T>>)
    ensures Apply(avail, a + b)
         == match Apply(avail, a) { case None => None case Some(mid) => Apply(mid, b) }
    decreases |a|
  {
    if a == [] {
      assert a + b == b;
    } else {
      assert (a + b)[1..] == a[1..] + b;
      ApplyConcat(if a[0].up then avail + {a[0].slot} else avail - {a[0].slot}, a[1..], b);
    }
  }

  lemma {:induction false} PathIsApply<T>(avail: set<T>, times: seq<real>, ts: seq<Transition<T>>)
    ensures Path(avail, times, ts).Some?
       <==> Apply(avail, Ordered(times, ts)).Some?
    decreases |times|
  {
    if times != [] {
      ApplyConcat(avail, At(ts, times[0]), Ordered(times[1..], ts));
      match Apply(avail, At(ts, times[0]))
      case None =>
      case Some(a) => PathIsApply(a, times[1..], ts);
    }
  }

  // ---------------------------------------------------------------------
  // Grouping by instant is the stable sort by time
  // ---------------------------------------------------------------------

  lemma {:induction false} AtConcat<T>(a: seq<Transition<T>>, b: seq<Transition<T>>, t: real)
    ensures At(a + b, t) == At(a, t) + At(b, t)
  {
    if a == [] {
      assert a + b == b;
    } else {
      AtConcat(a[1..], b, t);
      assert (a + b)[1..] == a[1..] + b;
    }
  }

  lemma {:induction false} AtAt<T>(ts: seq<Transition<T>>, u: real, t: real)
    ensures At(At(ts, u), t) == if u == t then At(ts, t) else []
  {
    if ts != [] {
      AtAt(ts[1..], u, t);
      if ts[0].time == u {
        assert At(ts, u)[1..] == At(ts[1..], u);
      }
    }
  }

  lemma {:induction false} AtMembers<T>(ts: seq<Transition<T>>, t: real)
    ensures forall x | x in At(ts, t) :: x in ts && x.time == t
  {
    if ts != [] {
      AtMembers(ts[1..], t);
    }
  }

  lemma {:induction false} AtCount<T>(ts: seq<Transition<T>>, x: Transition<T>)
    ensures multiset(At(ts, x.time))[x] == multiset(ts)[x]
  {
    if ts != [] {
      AtCount(ts[1..], x);
      assert ts == [ts[0]] + ts[1..];
    }
  }

  lemma {:induction false} OrderedStable<T>(times: seq<real>, ts: seq<Transition<T>>, t: real)
    requires StrictlySorted(times)
    ensures At(Ordered(times, ts), t) == if t in times then At(ts, t) else []
  {
    if times != [] {
      OrderedStable(times[1..], ts, t);
      AtConcat(At(ts, times[0]), Ordered(times[1..], ts), t);
      AtAt(ts, times[0], t);
      TailMembers(times, t);
    }
  }

  predicate NonFalling<T>(ts: seq<Transition<T>>) {
    forall i, j | 0 <= i < j < |ts| :: ts[i].time <= ts[j].time
  }

  lemma NonFallingConcat<T>(a: seq<Transition<T>>, b: seq<Transition<T>>, t: real)
    requires NonFalling(a) && NonFalling(b)
    requires forall x | x in a :: x.time <= t
    requires forall x | x in b :: t <= x.time
    ensures NonFalling(a + b)
  {
    forall i, j | 0 <= i < j < |a + b| ensures (a + b)[i].time <= (a + b)[j].time {
      if i < |a| <= j {
        assert a[i] in a && b[j - |a|] in b;
      }
    }
  }

  lemma {:induction false} OrderedSorted<T>(times: seq<real>, ts: seq<Transition<T>>)
    requires StrictlySorted(times)
    ensures forall x | x in Ordered(times, ts) :: x.time in times
    ensures NonFalling(Ordered(times, ts))
  {
    if times != [] {
      OrderedSorted(times[1..], ts);
      AtMembers(ts, times[0]);
      var a, b := At(ts, times[0]), Ordered(times[1..], ts);
      forall i, j | 0 <= i < j < |a| ensures a[i].time <= a[j].time {
        assert a[i] in a && a[j] in a;
      }
      NonFallingConcat(a, b, times[0]);
    }
  }

  /** `Ordered` is the order by (time, event index): it has the same transitions,
      in non-falling time, and at each instant in their original order. */
  lemma OrderedIsStableSort<T(!new)>(times: seq<real>, ts: seq<Transition<T>>)
    requires Enumerates(times, TimesOf(ts))
    ensures var r := Ordered(times, ts);
            && multiset(r) == multiset(ts)
            && NonFalling(r)
            && forall t :: At(r, t) == At(ts, t)
  {
    var r := Ordered(times, ts);
    OrderedSorted(times, ts);
    forall t ensures At(r, t) == At(ts, t) {
      OrderedStable(times, ts, t);
      AtEmpty(ts, t);
    }
    forall x ensures multiset(r)[x] == multiset(ts)[x] {
      AtCount(r, x);
      AtCount(ts, x);
      assert At(r, x.time) == At(ts, x.time);
    }
  }

  // ---------------------------------------------------------------------
  // One automaton per slot
  // ---------------------------------------------------------------------

  function Mine<T(==)>(ts: seq<Transition<T>>, slot: T): seq<Transition<T>> {
    if ts == [] then []
    else if ts[0].slot == slot then [ts[0]] + Mine(ts[1..], slot)
    else Mine(ts[1..], slot)
  }

  /** Ups and downs alternate, the first one opposite to `present`. */
  predicate Alternates<T>(present: bool, ts: seq<Transition<T>>)
    decreases |ts|
  {
    ts != [] ==> ts[0].up != present && Alternates(ts[0].up, ts[1..])
  }

  /** The simulation over the whole slot set succeeds exactly when each slot on
      its own alternates. */
  lemma {:induction false} ApplyFactorises<T(!new)>(avail: set<T>, ts: seq<Transition<T>>)
    ensures Apply(avail, ts).Some? <==> forall slot :: Alternates(slot in avail, Mine(ts, slot))
    decreases |ts|
  {
    if ts != [] {
      var x := ts[0];
      if x.up == (x.slot in avail) {
        assert Mine(ts, x.slot)[0] == x;
        assert !Alternates(x.slot in avail, Mine(ts, x.slot));
      } else {
        var avail' := if x.up then avail + {x.slot} else avail - {x.slot};
        ApplyFactorises(avail', ts[1..]);
        forall slot
          ensures Alternates(slot in avail, Mine(ts, slot)) <==> Alternates(slot in avail', Mine(ts[1..], slot))
        {
          if slot == x.slot {
            assert Mine(ts, slot)[1..] == Mine(ts[1..], slot);
          } else {
            assert Mine(ts, slot) == Mine(ts[1..], slot);
          }
        }
      }
    }
  }

  lemma {:induction false} MineConcat<T>(a: seq<Transition<T>>, b: seq<Transition<T>>, slot: T)
    ensures Mine(a + b, slot) == Mine(a, slot) + Mine(b, slot)
  {
    if a == [] {
      assert a + b == b;
    } else {
      MineConcat(a[1..], b, slot);
      assert (a + b)[1..] == a[1..] + b;
    }
  }

  lemma {:induction false} MineAt<T>(ts: seq<Transition<T>>, t: real, slot: T)
    ensures Mine(At(ts, t), slot) == At(Mine(ts, slot), t)
  {
    if ts != [] {
      MineAt(ts[1..], t, slot);
      var x := ts[0];
      MineConcat(if x.time == t then [x] else [], At(ts[1..], t), slot);
      if x.slot == slot {
        assert Mine(ts, slot)[1..] == Mine(ts[1..], slot);
      }
      assert [x][1..] == [];
    }
  }

  /** Picking a slot out of the grouped transitions is grouping that slot's own
      transitions. */
  lemma {:induction false} MineOrdered<T>(times: seq<real>, ts: seq<Transition<T>>, slot: T)
    ensures Mine(Ordered(times, ts), slot)
         == Ordered(times, Mine(ts, slot))
  {
    if times != [] {
      MineConcat(At(ts, times[0]), Ordered(times[1..], ts), slot);
      MineAt(ts, times[0], slot);
      MineOrdered(times[1..], ts, slot);
    }
  }

  lemma {:induction false} AtEmpty<T>(ts: seq<Transition<T>>, t: real)
    ensures At(ts, t) == [] <==> t !in TimesOf(ts)
  {
    if ts != [] {
      AtEmpty(ts[1..], t);
      assert t in TimesOf(ts) <==> t == ts[0].time || t in TimesOf(ts[1..]) by {
        assert forall x :: x in ts <==> x == ts[0] || x in ts[1..];
      }
    }
  }

  function Keep(times: seq<real>, s: set<real>): seq<real> {
    if times == [] then []
    else if times[0] in s then [times[0]] + Keep(times[1..], s)
    else Keep(times[1..], s)
  }

  lemma {:induction false} KeepEnumerates(times: seq<real>, s: set<real>)
    requires StrictlySorted(times)
    ensures StrictlySorted(Keep(times, s))
    ensures forall t :: t in Keep(times, s) <==> t in times && t in s
  {
    if times != [] {
      KeepEnumerates(times[1..], s);
      assert forall t :: t in times <==> t == times[0] || t in times[1..];
      var kept := Keep(times[1..], s);
      forall i | 0 <= i < |kept| ensures times[0] < kept[i] {
        assert kept[i] in times[1..];
      }
    }
  }

  lemma {:induction false} OrderedKeep<T>(times: seq<real>, ts: seq<Transition<T>>)
    ensures Ordered(times, ts)
         == Ordered(Keep(times, TimesOf(ts)), ts)
  {
    if times != [] {
      OrderedKeep(times[1..], ts);
      AtEmpty(ts, times[0]);
      var rest := Keep(times[1..], TimesOf(ts));
      if times[0] in TimesOf(ts) {
        assert ([times[0]] + rest)[1..] == rest;
      }
    }
  }

  /** Extra instants do not matter: grouping depends only on the transitions. */
  lemma OrderedIntrinsic<T>(a: seq<real>, b: seq<real>, ts: seq<Transition<T>>)
    requires StrictlySorted(a) && forall t | t in TimesOf(ts) :: t in a
    requires Enumerates(b, TimesOf(ts))
    ensures Ordered(a, ts) == Ordered(b, ts)
  {
    OrderedKeep(a, ts);
    KeepEnumerates(a, TimesOf(ts));
    EnumerationUnique(Keep(a, TimesOf(ts)), b);
  }

  lemma {:induction false} MineMembers<T>(ts: seq<Transition<T>>, slot: T)
    ensures forall x :: x in Mine(ts, slot) <==> x in ts && x.slot == slot
  {
    if ts != [] {
      MineMembers(ts[1..], slot);
      assert forall x :: x in ts <==> x == ts[0] || x in ts[1..];
    }
  }

  /** Slot `slot`, looked at alone: its own transitions, at its own instants in
      event order within an instant, alternate starting opposite to whether it
      is initially present. */
  ghost predicate SlotAlternates<T>(ts: seq<Transition<T>>, slot: T, present: bool) {
    exists times :: Enumerates(times, TimesOf(Mine(ts, slot)))
      && Alternates(present, Ordered(times, Mine(ts, slot)))
  }

  lemma SlotAlternatesExact<T>(ts: seq<Transition<T>>, slot: T, present: bool, times: seq<real>)
    requires Enumerates(times, TimesOf(ts))
    ensures SlotAlternates(ts, slot, present)
       <==> Alternates(present, Mine(Ordered(times, ts), slot))
  {
    MineOrdered(times, ts, slot);
    MineMembers(ts, slot);
    var own := Keep(times, TimesOf(Mine(ts, slot)));
    assert forall t | t in TimesOf(Mine(ts, slot)) :: t in TimesOf(ts);
    KeepEnumerates(times, TimesOf(Mine(ts, slot)));
    assert Enumerates(own, TimesOf(Mine(ts, slot)));
    OrderedIntrinsic(times, own, Mine(ts, slot));
    forall other | Enumerates(other, TimesOf(Mine(ts, slot))) ensures other == own {
      EnumerationUnique(other, own);
    }
  }

  /** The trace simulation factorises into independent per-slot automata. */
  lemma SimulationFactorises<T(!new)>(avail: set<T>, times: seq<real>, ts: seq<Transition<T>>)
    requires Enumerates(times, TimesOf(ts))
    ensures Path(avail, times, ts).Some? <==> forall slot :: SlotAlternates(ts, slot, slot in avail)
  {
    PathIsApply(avail, times, ts);
    ApplyFactorises(avail, Ordered(times, ts));
    forall slot
      ensures SlotAlternates(ts, slot, slot in avail)
         <==> Alternates(slot in avail, Mine(Ordered(times, ts), slot))
    {
      SlotAlternatesExact(ts, slot, slot in avail, times);
    }
  }

  // ---------------------------------------------------------------------
  // Counting form
  // ---------------------------------------------------------------------

  /** Ups minus downs. */
  function Net<T>(ts: seq<Transition<T>>): int {
    if ts == [] then 0 else (if ts[0].up then 1 else -1) + Net(ts[1..])
  }

  lemma {:induction false} ApplyNet<T>(avail: set<T>, ts: seq<Transition<T>>)
    requires Apply(avail, ts).Some?
    ensures |Apply(avail, ts).value| == |avail| + Net(ts)
    decreases |ts|
  {
    if ts != [] {
      ApplyNet(if ts[0].up then avail + {ts[0].slot} else avail - {ts[0].slot}, ts[1..]);
    }
  }

  /** Running totals of the net change at each instant. */
  function Totals<T>(start: int, times: seq<real>, ts: seq<Transition<T>>): (r: seq<int>)
    ensures |r| == |times|
    decreases |times|
  {
    if times == [] then []
    else
      var now := start + Net(At(ts, times[0]));
      [now] + Totals(now, times[1..], ts)
  }

  /** Counting alone gives the simulated capacities. */
  lemma {:induction false} PathIsTotals<T>(avail: set<T>, times: seq<real>, ts: seq<Transition<T>>)
    requires Path(avail, times, ts).Some?
    ensures Path(avail, times, ts).value
         == Totals(|avail|, times, ts)
    decreases |times|
  {
    if times != [] {
      ApplyNet(avail, At(ts, times[0]));
      PathIsTotals(Apply(avail, At(ts, times[0])).value, times[1..], ts);
    }
  }

  /** Ups minus downs at or before `t`. */
  function NetUpTo<T>(ts: seq<Transition<T>>, t: real): int {
    if ts == [] then 0
    else (if ts[0].time > t then 0 else if ts[0].up then 1 else -1) + NetUpTo(ts[1..], t)
  }

  lemma {:induction false} NetUpToStep<T>(ts: seq<Transition<T>>, a: real, b: real)
    requires a < b && forall x | x in ts :: x.time <= a || b <= x.time
    ensures NetUpTo(ts, b) == NetUpTo(ts, a) + Net(At(ts, b))
  {
    if ts != [] {
      assert ts[0] in ts;
      NetUpToStep(ts[1..], a, b);
      if ts[0].time == b {
        assert At(ts, b)[1..] == At(ts[1..], b);
      }
    }
  }

  lemma {:induction false} NetUpToNothing<T>(ts: seq<Transition<T>>, a: real)
    requires forall x | x in ts :: a < x.time
    ensures NetUpTo(ts, a) == 0
  {
    if ts != [] {
      assert ts[0] in ts;
      NetUpToNothing(ts[1..], a);
    }
  }

  lemma {:induction false} TotalsFrom<T>(start: int, times: seq<real>, ts: seq<Transition<T>>, a: real)
    requires StrictlySorted(times) && (times != [] ==> a < times[0])
    requires forall x | x in ts :: x.time <= a || x.time in times
    ensures forall k | 0 <= k < |times| :: Totals(start, times, ts)[k] == start + NetUpTo(ts, times[k]) - NetUpTo(ts, a)
    decreases |times|
  {
    if times != [] {
      forall x | x in ts ensures x.time <= a || times[0] <= x.time {
        if x.time > a {
          var i :| 0 <= i < |times| && times[i] == x.time;
        }
      }
      NetUpToStep(ts, a, times[0]);
      var now, rest := start + Net(At(ts, times[0])), times[1..];
      forall x | x in ts ensures x.time <= times[0] || x.time in rest {
        if x.time in times {
          TailMembers(times, x.time);
        }
      }
      TotalsFrom(now, rest, ts, times[0]);
      forall k | 0 <= k < |times| ensures Totals(start, times, ts)[k] == start + NetUpTo(ts, times[k]) - NetUpTo(ts, a) {
        if k > 0 {
          assert times[k] == rest[k - 1] && Totals(start, times, ts)[k] == Totals(now, rest, ts)[k - 1];
        }
      }
    }
  }

  /** The running total at an instant is the start plus all ups and minus all
      downs up to then, whatever their grouping. */
  lemma TotalsExact<T(!new)>(start: int, times: seq<real>, ts: seq<Transition<T>>, k: nat)
    requires Enumerates(times, TimesOf(ts)) && k < |times|
    ensures Totals(start, times, ts)[k]
         == start + NetUpTo(ts, times[k])
  {
    var a := times[0] - 1.0;
    forall x | x in ts ensures x.time in times && a < x.time {
      assert x.time in TimesOf(ts);
      var i :| 0 <= i < |times| && times[i] == x.time;
    }
    TotalsFrom(start, times, ts, a);
    NetUpToNothing(ts, a);
  }

  lemma {:induction false} NetUpToConcat<T>(a: seq<Transition<T>>, b: seq<Transition<T>>, t: real)
    ensures NetUpTo(a + b, t) == NetUpTo(a, t) + NetUpTo(b, t)
  {
    if a == [] {
      assert a + b == b;
    } else {
      NetUpToConcat(a[1..], b, t);
      assert (a + b)[1..] == a[1..] + b;
    }
  }

  // ---------------------------------------------------------------------
  // Renaming slots
  // ---------------------------------------------------------------------

  function Rename<S, T>(ts: seq<Transition<S>>, f: S -> T): (r: seq<Transition<T>>)
    ensures |r| == |ts|
  {
    if ts == [] then []
    else [Transition(ts[0].time, ts[0].up, f(ts[0].slot))] + Rename(ts[1..], f)
  }

  function Image<S, T(==)>(s: set<S>, f: S -> T): set<T> {
    set x | x in s :: f(x)
  }

  ghost predicate InjectiveOn<S, T>(f: S -> T, domain: set<S>) {
    forall x, y | x in domain && y in domain && f(x) == f(y) :: x == y
  }

  lemma {:induction false} ImageSize<S, T>(s: set<S>, f: S -> T, domain: set<S>)
    requires s <= domain && InjectiveOn(f, domain)
    ensures |Image(s, f)| == |s|
  {
    if s != {} {
      var x :| x in s;
      ImageSize(s - {x}, f, domain);
      assert Image(s, f) == Image(s - {x}, f) + {f(x)};
    }
  }

  lemma {:induction false} RenameAt<S, T>(ts: seq<Transition<S>>, t: real, f: S -> T)
    ensures At(Rename(ts, f), t) == Rename(At(ts, t), f)
  {
    if ts != [] {
      RenameAt(ts[1..], t, f);
      assert Rename(ts, f)[1..] == Rename(ts[1..], f);
      if ts[0].time == t {
        assert At(ts, t)[1..] == At(ts[1..], t);
      }
    }
  }

  predicate SlotsIn<T>(ts: seq<Transition<T>>, domain: set<T>) {
    forall x | x in ts :: x.slot in domain
  }

  lemma {:induction false} RenameApply<S, T>(avail: set<S>, ts: seq<Transition<S>>, f: S -> T, domain: set<S>)
    requires avail <= domain && SlotsIn(ts, domain) && InjectiveOn(f, domain)
    ensures match Apply(avail, ts)
            case None => Apply(Image(avail, f), Rename(ts, f)) == None
            case Some(a) => a <= domain && Apply(Image(avail, f), Rename(ts, f)) == Some(Image(a, f))
    decreases |ts|
  {
    if ts != [] {
      var x := ts[0];
      assert x in ts;
      assert f(x.slot) in Image(avail, f) <==> x.slot in avail;
      assert Rename(ts, f)[1..] == Rename(ts[1..], f);
      if x.up != (x.slot in avail) {
        var avail' := if x.up then avail + {x.slot} else avail - {x.slot};
        assert Image(avail', f) == if x.up then Image(avail, f) + {f(x.slot)} else Image(avail, f) - {f(x.slot)};
        RenameApply(avail', ts[1..], f, domain);
      }
    }
  }

  /** An injective renaming of slots leaves the capacity path unchanged. */
  lemma {:induction false} RenamePath<S, T>(avail: set<S>, times: seq<real>, ts: seq<Transition<S>>, f: S -> T, domain: set<S>)
    requires avail <= domain && SlotsIn(ts, domain) && InjectiveOn(f, domain)
    ensures Path(Image(avail, f), times, Rename(ts, f))
         == Path(avail, times, ts)
    decreases |times|
  {
    if times != [] {
      RenameAt(ts, times[0], f);
      AtMembers(ts, times[0]);
      RenameApply(avail, At(ts, times[0]), f, domain);
      match Apply(avail, At(ts, times[0]))
      case None =>
      case Some(a) =>
        RenamePath(a, times[1..], ts, f, domain);
        ImageSize(a, f, domain);
    }
  }
}
