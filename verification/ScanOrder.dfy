/** The order in which src/scan.rs tries serial settings and unit ids. Hints move candidates to the
    front; nothing drops out. */
module ScanOrder {
  datatype Parity = NoParity | Even | Odd

  datatype Settings = Settings(baud: nat, parity: Parity, stopBits: nat)

  /** The settings every scan covers. */
  const SETTINGS: seq<Settings> := [
    Settings(9600, NoParity, 1),
    Settings(9600, Even, 1),
    Settings(19200, NoParity, 1),
    Settings(19200, Even, 1),
    Settings(38400, NoParity, 1),
    Settings(115200, NoParity, 1)
  ]

  const MAX_UNIT: nat := 247

  // ----- First occurrences -----

  /** `xs` without what is in `seen` and without repeats, first occurrences in order. */
  function Distinct<T(==)>(xs: seq<T>, seen: set<T>): seq<T> {
    if xs == [] then []
    else if xs[0] in seen then Distinct(xs[1..], seen)
    else [xs[0]] + Distinct(xs[1..], seen + {xs[0]})
  }

  function Elements<T>(xs: seq<T>): set<T> {
    set x | x in xs
  }

  ghost predicate NoRepeats<T(!new)>(xs: seq<T>) {
    forall i, j :: 0 <= i < j < |xs| ==> xs[i] != xs[j]
  }

  lemma {:induction false} DistinctMembers<T(!new)>(xs: seq<T>, seen: set<T>)
    ensures NoRepeats(Distinct(xs, seen))
    ensures forall x :: x in Distinct(xs, seen) <==> x in xs && x !in seen
    decreases |xs|
  {
    if xs != [] {
      assert xs == [xs[0]] + xs[1..];
      DistinctMembers(xs[1..], if xs[0] in seen then seen else seen + {xs[0]});
    }
  }

  lemma {:induction false} DistinctAppend<T>(xs: seq<T>, ys: seq<T>, seen: set<T>)
    ensures Distinct(xs + ys, seen) == Distinct(xs, seen) + Distinct(ys, seen + Elements(xs))
    decreases |xs|
  {
    if xs == [] {
      assert xs + ys == ys;
      assert seen + Elements(xs) == seen;
    } else {
      assert (xs + ys)[1..] == xs[1..] + ys;
      var seen' := if xs[0] in seen then seen else seen + {xs[0]};
      DistinctAppend(xs[1..], ys, seen');
      assert xs == [xs[0]] + xs[1..];
      assert seen' + Elements(xs[1..]) == seen + Elements(xs);
    }
  }

  /** Dropping elements moves nothing to a later place. */
  lemma {:induction false} DistinctNotLater<T>(xs: seq<T>, seen: set<T>, k: nat)
    requires k < |xs| && xs[k] !in seen
    ensures exists j: nat :: j <= k && j < |Distinct(xs, seen)| && Distinct(xs, seen)[j] == xs[k]
    decreases |xs|
  {
    var d := Distinct(xs, seen);
    if xs[0] == xs[k] {
      assert d[0] == xs[k];
    } else {
      var seen' := if xs[0] in seen then seen else seen + {xs[0]};
      DistinctNotLater(xs[1..], seen', k - 1);
      var j: nat :| j <= k - 1 && j < |Distinct(xs[1..], seen')| && Distinct(xs[1..], seen')[j] == xs[k];
      var i := if xs[0] in seen then j else j + 1;
      assert d[i] == xs[k];
    }
  }

  /** What comes first stays first: an element that is there before another's first place is kept before
      it. */
  lemma {:induction false} DistinctInOrder<T(!new)>(xs: seq<T>, seen: set<T>, i: nat, j: nat) returns (a: nat, b: nat)
    requires i < j < |xs| && xs[i] !in seen && xs[j] !in seen && xs[j] !in xs[..j]
    ensures a < b < |Distinct(xs, seen)| && Distinct(xs, seen)[a] == xs[i] && Distinct(xs, seen)[b] == xs[j]
    decreases |xs|
  {
    var d := Distinct(xs, seen);
    var seen' := if xs[0] in seen then seen else seen + {xs[0]};
    assert xs[0] in xs[..j] && xs[i] in xs[..j];
    assert xs[1..][..j - 1] == xs[..j][1..];
    if xs[0] == xs[i] {
      DistinctNotLater(xs[1..], seen', j - 1);
      var k: nat :| k <= j - 1 && k < |Distinct(xs[1..], seen')| && Distinct(xs[1..], seen')[k] == xs[1..][j - 1];
      a, b := 0, k + 1;
    } else {
      a, b := DistinctInOrder(xs[1..], seen', i - 1, j - 1);
      if xs[0] !in seen {
        a, b := a + 1, b + 1;
      }
    }
  }

  // ----- Units -----

  predicate IsUnit(u: nat) {
    1 <= u <= MAX_UNIT
  }

  function Valid(hints: seq<nat>): seq<nat> {
    if hints == [] then [] else (if IsUnit(hints[0]) then [hints[0]] else []) + Valid(hints[1..])
  }

  /** From both ends inwards. */
  function Ends(low: nat, high: nat): seq<nat>
    decreases high + 1 - low
  {
    if low > high || high == 0 then [] else [low, high] + Ends(low + 1, high - 1)
  }

  /** What `unit_order` returns. */
  function Units(hints: seq<nat>): seq<nat> {
    Distinct(Valid(hints) + Ends(1, MAX_UNIT), {})
  }

  lemma EndsStep(low: nat, high: nat)
    ensures Ends(low, high) == if low > high || high == 0 then [] else [low] + ([high] + Ends(low + 1, high - 1))
  {}

  lemma DistinctCons<T>(x: T, xs: seq<T>, seen: set<T>)
    ensures Distinct([x] + xs, seen)
         == if x in seen then Distinct(xs, seen) else [x] + Distinct(xs, seen + {x})
  {
    assert ([x] + xs)[1..] == xs;
  }

  lemma Regroup<T>(a: seq<T>, b: seq<T>, c: seq<T>)
    ensures a + (b + c) == (a + b) + c
  {}

  /** One more candidate dealt with. */
  lemma TakeStep<T>(order: seq<T>, u: T, rest: seq<T>, seen: set<T>)
    ensures order + Distinct([u] + rest, seen)
         == if u in seen then order + Distinct(rest, seen) else (order + [u]) + Distinct(rest, seen + {u})
  {
    DistinctCons(u, rest, seen);
    hide Distinct;
    Regroup(order, [u], Distinct(rest, seen + {u}));
  }

  lemma ValidFrom(hints: seq<nat>, i: nat, tail: seq<nat>)
    requires i < |hints|
    ensures Valid(hints[i..]) + tail
         == if IsUnit(hints[i]) then [hints[i]] + (Valid(hints[i + 1..]) + tail) else Valid(hints[i + 1..]) + tail
  {}

  lemma NothingLeft(order: seq<nat>, hints: seq<nat>, low: nat, high: nat, seen: set<nat>)
    ensures hints[|hints|..] == [] && Valid([]) + Ends(1, MAX_UNIT) == Ends(1, MAX_UNIT)
    ensures low > high ==> order + Distinct(Ends(low, high), seen) == order
  {
    EndsStep(low, high);
    hide Ends;
  }

  method UnitOrder(hints: seq<nat>) returns (order: seq<nat>)
    ensures order == Units(hints)
  {
    hide Distinct, Ends, Valid, IsUnit;
    var seen: set<nat> := {};
    order := [];
    assert hints[0..] == hints;
    ghost var tail := Ends(1, MAX_UNIT);
    for i := 0 to |hints|
      invariant order + Distinct(Valid(hints[i..]) + tail, seen) == Units(hints)
    {
      var u := hints[i];
      ValidFrom(hints, i, tail);
      TakeStep(order, u, Valid(hints[i + 1..]) + tail, seen);
      if IsUnit(u) && u !in seen {
        order := order + [u];
        seen := seen + {u};
      }
    }
    NothingLeft(order, hints, 1, MAX_UNIT, seen);
    var low, high := 1, MAX_UNIT;
    while low <= high
      invariant low + high == MAX_UNIT + 1 && 1 <= low <= high + 2
      invariant order + Distinct(Ends(low, high), seen) == Units(hints)
    {
      ghost var rest := Ends(low + 1, high - 1);
      EndsStep(low, high);
      TakeStep(order, low, [high] + rest, seen);
      if low !in seen {
        seen := seen + {low};
        order := order + [low];
      }
      TakeStep(order, high, rest, seen);
      if high !in seen {
        seen := seen + {high};
        order := order + [high];
      }
      low := low + 1;
      high := high - 1;
    }
    NothingLeft(order, hints, low, high, seen);
  }

  lemma {:induction false} ValidMembers(hints: seq<nat>)
    ensures forall u :: u in Valid(hints) <==> u in hints && IsUnit(u)
  {
    if hints != [] {
      ValidMembers(hints[1..]);
      assert hints == [hints[0]] + hints[1..];
    }
  }

  /** Position `k` of the unhinted order. */
  function UnitAt(k: nat): nat
    requires k < MAX_UNIT
  {
    if k % 2 == 0 then 1 + k / 2 else MAX_UNIT - k / 2
  }

  lemma EndsParts(low: nat, high: nat, k: nat)
    requires 1 <= low <= high
    ensures |Ends(low, high)| == 2 + |Ends(low + 1, high - 1)|
    ensures Ends(low, high)[0] == low && Ends(low, high)[1] == high
    ensures 2 <= k < |Ends(low, high)| ==> Ends(low, high)[k] == Ends(low + 1, high - 1)[k - 2]
  {}

  lemma {:induction false} EndsAt(low: nat, k: nat)
    requires 1 <= low <= 124 && k < 2 * (125 - low)
    ensures |Ends(low, 248 - low)| == 2 * (125 - low)
    ensures Ends(low, 248 - low)[k] == if k % 2 == 0 then low + k / 2 else 248 - low - k / 2
    decreases 124 - low
  {
    hide Ends;
    EndsParts(low, 248 - low, k);
    if low < 124 {
      EndsAt(low + 1, if k >= 2 then k - 2 else 0);
    } else {
      EndsStep(125, 123);
    }
  }

  /** Every unit has its place in the unhinted order. */
  lemma UnitAtOnto(u: nat)
    requires IsUnit(u)
    ensures PlaceOf(u) < MAX_UNIT && UnitAt(PlaceOf(u)) == u
  {}

  lemma EndsCoverUnits()
    ensures |Ends(1, MAX_UNIT)| == 248
    ensures forall k: nat :: k < MAX_UNIT ==> Ends(1, MAX_UNIT)[k] == UnitAt(k)
    ensures forall u :: u in Ends(1, MAX_UNIT) <==> IsUnit(u)
  {
    forall k: nat | k < 248
      ensures |Ends(1, MAX_UNIT)| == 248
      ensures Ends(1, MAX_UNIT)[k] == if k % 2 == 0 then 1 + k / 2 else MAX_UNIT - k / 2
    {
      EndsAt(1, k);
    }
    EndsAt(1, 0);
    forall u: nat | IsUnit(u)
      ensures u in Ends(1, MAX_UNIT)
    {
      UnitAtOnto(u);
      assert Ends(1, MAX_UNIT)[PlaceOf(u)] == u;
    }
  }

  function Without(xs: seq<nat>, i: nat): seq<nat>
    requires i < |xs|
  {
    xs[..i] + xs[i + 1..]
  }

  /** Taking out one element keeps the others, and their places apart. */
  lemma WithoutOne(xs: seq<nat>, i: nat)
    requires NoRepeats(xs) && i < |xs|
    ensures NoRepeats(Without(xs, i))
    ensures forall u :: u in Without(xs, i) <==> u in xs && u != xs[i]
  {
    var ys := Without(xs, i);
    forall u
      ensures u in ys <==> u in xs && u != xs[i]
    {
      if u in ys {
        var j :| 0 <= j < |ys| && ys[j] == u;
        assert u == xs[if j < i then j else j + 1];
      }
      if u in xs && u != xs[i] {
        var j :| 0 <= j < |xs| && xs[j] == u;
        assert u == ys[if j < i then j else j - 1];
      }
    }
  }

  lemma HasMember(xs: seq<nat>)
    ensures xs == [] || exists u :: u in xs
  {
    if xs != [] {
      assert xs[0] in xs;
    }
  }

  lemma {:induction false} CountUnits(xs: seq<nat>, n: nat)
    requires NoRepeats(xs) && forall u: nat :: u in xs <==> 1 <= u <= n
    ensures |xs| == n
    decreases n
  {
    hide NoRepeats;
    if n == 0 {
      HasMember(xs);
    } else {
      assert n in xs;
      var i :| 0 <= i < |xs| && xs[i] == n;
      WithoutOne(xs, i);
      assert |Without(xs, i)| == |xs| - 1;
      hide Without;
      CountUnits(Without(xs, i), n - 1);
    }
  }

  /** For any hints at all: each of the 247 units exactly once, the distinct valid hints first, in the
      order given. */
  lemma UnitsExactlyOnce(hints: seq<nat>)
    ensures |Units(hints)| == MAX_UNIT && NoRepeats(Units(hints))
    ensures forall u :: u in Units(hints) <==> IsUnit(u)
    ensures Distinct(Valid(hints), {}) <= Units(hints)
  {
    ValidMembers(hints);
    EndsCoverUnits();
    DistinctMembers(Valid(hints) + Ends(1, MAX_UNIT), {});
    CountUnits(Units(hints), MAX_UNIT);
    DistinctAppend(Valid(hints), Ends(1, MAX_UNIT), {});
  }

  lemma {:induction false} ValidPlaces(hints: seq<nat>, i: nat, j: nat) returns (a: nat, b: nat)
    requires i < j < |hints| && IsUnit(hints[i]) && IsUnit(hints[j]) && hints[j] !in hints[..j]
    ensures a < b < |Valid(hints)| && Valid(hints)[a] == hints[i] && Valid(hints)[b] == hints[j]
    ensures hints[j] !in Valid(hints)[..b]
    decreases |hints|
  {
    assert hints[0] in hints[..j];
    assert hints[1..][..j - 1] == hints[..j][1..];
    var rest := Valid(hints[1..]);
    if i == 0 {
      b := ValidPlace(hints[1..], j - 1);
      a, b := 0, b + 1;
      assert Valid(hints)[..b] == [hints[0]] + rest[..b - 1];
    } else {
      a, b := ValidPlaces(hints[1..], i - 1, j - 1);
      if IsUnit(hints[0]) {
        a, b := a + 1, b + 1;
        assert Valid(hints)[..b] == [hints[0]] + rest[..b - 1];
      } else {
        assert Valid(hints) == rest;
      }
    }
  }

  lemma {:induction false} ValidPlace(hints: seq<nat>, j: nat) returns (b: nat)
    requires j < |hints| && IsUnit(hints[j]) && hints[j] !in hints[..j]
    ensures b < |Valid(hints)| && Valid(hints)[b] == hints[j] && hints[j] !in Valid(hints)[..b]
    decreases |hints|
  {
    if j == 0 {
      b := 0;
    } else {
      assert hints[0] in hints[..j];
      assert hints[1..][..j - 1] == hints[..j][1..];
      var rest := Valid(hints[1..]);
      b := ValidPlace(hints[1..], j - 1);
      if IsUnit(hints[0]) {
        b := b + 1;
        assert Valid(hints)[..b] == [hints[0]] + rest[..b - 1];
      } else {
        assert Valid(hints) == rest;
      }
    }
  }

  /** All that is hinted comes before all that is not. */
  ghost predicate HintsAhead(order: seq<nat>, hints: seq<nat>) {
    forall a, b :: 0 <= a < |order| && 0 <= b < |order| && order[a] in hints && order[b] !in hints ==> a < b
  }

  /** Hinted units are asked in the order in which they are first hinted, and before all others. */
  lemma HintsInOrder(hints: seq<nat>, i: nat, j: nat)
    requires i < j < |hints| && IsUnit(hints[i]) && IsUnit(hints[j]) && hints[j] !in hints[..j]
    ensures exists a, b :: 0 <= a < b < |Units(hints)| && Units(hints)[a] == hints[i] && Units(hints)[b] == hints[j]
    ensures HintsAhead(Units(hints), hints)
  {
    hide Ends;
    var front, ends := Valid(hints), Ends(1, MAX_UNIT);
    var a, b := ValidPlaces(hints, i, j);
    assert (front + ends)[..b] == front[..b];
    var c, d := DistinctInOrder(front + ends, {}, a, b);
    assert Units(hints)[c] == hints[i] && Units(hints)[d] == hints[j];
    HintsFirst(hints);
  }

  lemma HintsFirst(hints: seq<nat>)
    ensures HintsAhead(Units(hints), hints)
  {
    hide Units, Distinct, Valid;
    var front := Distinct(Valid(hints), {});
    UnitsExactlyOnce(hints);
    ValidMembers(hints);
    DistinctMembers(Valid(hints), {});
    forall b | 0 <= b < |front|
      ensures Units(hints)[b] in hints
    {
      assert Units(hints)[b] == front[b] && front[b] in front;
    }
    forall a | 0 <= a < |Units(hints)| && Units(hints)[a] in hints
      ensures a < |front|
    {
      assert Units(hints)[a] in Units(hints);
      assert Units(hints)[a] in front;
      var k :| 0 <= k < |front| && front[k] == Units(hints)[a];
      assert Units(hints)[k] == front[k];
    }
  }

  /** A unit's place moves back by no more than the number of distinct valid hints. */
  lemma UnitNotMuchLater(hints: seq<nat>, k: nat)
    requires k < MAX_UNIT
    ensures exists j: nat ::
              && j <= k + |Distinct(Valid(hints), {})|
              && j < |Units(hints)| && Units(hints)[j] == UnitAt(k)
  {
    var front, ends := Distinct(Valid(hints), {}), Ends(1, MAX_UNIT);
    var seen := {} + Elements(Valid(hints));
    var back := Distinct(ends, seen);
    DistinctAppend(Valid(hints), ends, {});
    assert Units(hints) == front + back;
    hide Ends, UnitAt, Distinct, Valid, Units;
    var u := UnitAt(k);
    EndsCoverUnits();
    DistinctMembers(Valid(hints), {});
    if u !in front {
      DistinctNotLater(ends, seen, k);
    }
    FoundWithin(front, back, u, k);
  }

  lemma FoundWithin(front: seq<nat>, back: seq<nat>, u: nat, k: nat)
    requires u in front || exists j: nat :: j <= k && j < |back| && back[j] == u
    ensures exists j: nat :: j <= k + |front| && j < |front + back| && (front + back)[j] == u
  {
    if u in front {
      var j: nat :| j < |front| && front[j] == u;
      assert (front + back)[j] == u;
    } else {
      var j: nat :| j <= k && j < |back| && back[j] == u;
      assert (front + back)[|front| + j] == u;
    }
  }

  /** Without hints: which unit comes at place `k`. */
  lemma {:induction false} UnhintedAt(k: nat)
    requires k < MAX_UNIT
    ensures |Units([])| == MAX_UNIT && Units([])[k] == UnitAt(k)
    decreases k
  {
    UnitsExactlyOnce([]);
    assert Valid([]) + Ends(1, MAX_UNIT) == Ends(1, MAX_UNIT);
    UnitNotMuchLater([], k);
    var j: nat :| j <= k && j < |Units([])| && Units([])[j] == UnitAt(k);
    if j < k {
      UnhintedAt(j);
      UnitAtInjective(j, k);
    }
  }

  /** Where unit `u` stands without hints. */
  function PlaceOf(u: nat): nat
    requires IsUnit(u)
  {
    if u <= 124 then 2 * (u - 1) else 2 * (MAX_UNIT - u) + 1
  }

  /** Without hints, unit `u` comes at 2(u - 1) from the low end and at 2(247 - u) + 1 from the high, and
      nowhere else. */
  lemma UnhintedOrder(u: nat, k: nat)
    requires IsUnit(u) && k < |Units([])|
    ensures Units([])[k] == u <==> k == PlaceOf(u)
  {
    hide Units;
    UnitsExactlyOnce([]);
    UnhintedAt(k);
    UnitAtOnto(u);
    if UnitAt(k) == u {
      UnitAtInjective(k, PlaceOf(u));
    }
  }

  lemma UnitAtInjective(j: nat, k: nat)
    requires j < MAX_UNIT && k < MAX_UNIT && UnitAt(j) == UnitAt(k)
    ensures j == k
  {}

  // ----- Settings -----

  function SettingsToTry(hints: seq<Settings>): seq<Settings> {
    Distinct(hints + SETTINGS, {})
  }

  method SettingsOrder(hints: seq<Settings>) returns (order: seq<Settings>)
    ensures order == SettingsToTry(hints)
  {
    hide Distinct, Elements;
    order := [];
    var all := hints + SETTINGS;
    assert all[0..] == all && Elements<Settings>([]) == {} by { ElementsNone<Settings>(); }
    for i := 0 to |all|
      invariant order + Distinct(all[i..], Elements(order)) == SettingsToTry(hints)
    {
      assert all[i..] == [all[i]] + all[i + 1..];
      TakeStep(order, all[i], all[i + 1..], Elements(order));
      ElementsMore(order, all[i]);
      if all[i] !in order {
        order := order + [all[i]];
      }
    }
    assert all[|all|..] == [];
    NothingDistinct(Elements(order));
  }

  lemma ElementsNone<T>()
    ensures Elements<T>([]) == {}
  {}

  lemma ElementsMore<T>(xs: seq<T>, x: T)
    ensures x in Elements(xs) <==> x in xs
    ensures Elements(xs + [x]) == Elements(xs) + {x}
  {}

  lemma NothingDistinct<T>(seen: set<T>)
    ensures Distinct([], seen) == []
  {}

  /** Each hinted or default setting exactly once, and so every default whatever is hinted. */
  lemma SettingsExactlyOnce(hints: seq<Settings>)
    ensures NoRepeats(SettingsToTry(hints))
    ensures forall s :: s in SettingsToTry(hints) <==> s in hints || s in SETTINGS
    ensures Distinct(hints, {}) <= SettingsToTry(hints)
  {
    DistinctMembers(hints + SETTINGS, {});
    DistinctAppend(hints, SETTINGS, {});
  }

  /** Settings are tried as they are first hinted, then the defaults; what is hinted moves ahead. */
  lemma SettingsInOrder(hints: seq<Settings>, i: nat, j: nat)
    requires i < j < |hints + SETTINGS| && (hints + SETTINGS)[j] !in (hints + SETTINGS)[..j]
    ensures exists a, b ::
              && 0 <= a < b < |SettingsToTry(hints)|
              && SettingsToTry(hints)[a] == (hints + SETTINGS)[i] && SettingsToTry(hints)[b] == (hints + SETTINGS)[j]
  {
    var a, b := DistinctInOrder(hints + SETTINGS, {}, i, j);
    var order := SettingsToTry(hints);
    assert order[a] == (hints + SETTINGS)[i] && order[b] == (hints + SETTINGS)[j];
  }
}
