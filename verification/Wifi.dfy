/** The wifi list (src/parse.rs): from every access point seen, one network a name, strongest first. */
module Wifi {
  import opened Wrappers

  /** One row of nmcli's listing; the name without the blanks around it. */
  datatype Network = Network(ssid: string, signal: Option<int>, security: string, freq: Option<int>)

  /** Hidden networks have no name to show. */
  predicate Visible(n: Network) {
    n.ssid != "" && n.ssid != "--"
  }

  /** No reading is weaker than any reading. */
  predicate Weaker(a: Option<int>, b: Option<int>) {
    b.Some? && (a.None? || a.value < b.value)
  }

  /** Where a name first appears. */
  function FirstIndex(rows: seq<Network>, ssid: string): (n: nat)
    ensures n <= |rows|
    ensures forall k :: 0 <= k < n ==> rows[k].ssid != ssid
    ensures n < |rows| ==> rows[n].ssid == ssid
  {
    if rows == [] || rows[0].ssid == ssid then 0 else 1 + FirstIndex(rows[1..], ssid)
  }

  /** Row `j` does not keep row `i` from being the first of the strongest of its name. */
  predicate Yields(rows: seq<Network>, i: nat, j: nat)
    requires i < |rows| && j < |rows|
  {
    rows[j].ssid == rows[i].ssid ==>
      && !Weaker(rows[i].signal, rows[j].signal)
      && (j < i ==> Weaker(rows[j].signal, rows[i].signal))
  }

  /** Among the first `n` rows, row `i` is the first of the strongest of its name. */
  ghost predicate Chosen(rows: seq<Network>, n: nat, i: nat)
    requires n <= |rows|
  {
    i < n && Visible(rows[i]) && forall j :: 0 <= j < n ==> Yields(rows, i, j)
  }

  /** `best` is row `at[k]` for each `k`, the strongest of its name. */
  ghost predicate AllChosen(rows: seq<Network>, n: nat, best: seq<Network>, at: seq<nat>)
    requires n <= |rows|
  {
    && |at| == |best|
    && forall k :: 0 <= k < |best| ==> at[k] < n && Chosen(rows, n, at[k]) && best[k] == rows[at[k]]
  }

  /** `x` is the first of the strongest rows of its name. */
  ghost predicate IsStrongest(rows: seq<Network>, x: Network) {
    exists i: nat :: i < |rows| && Chosen(rows, |rows|, i) && x == rows[i]
  }

  predicate Named(best: seq<Network>, ssid: string) {
    exists k :: 0 <= k < |best| && best[k].ssid == ssid
  }

  /** Every visible name among the first `n` rows is there. */
  ghost predicate Covers(rows: seq<Network>, n: nat, best: seq<Network>)
    requires n <= |rows|
  {
    forall j :: 0 <= j < n && Visible(rows[j]) ==> Named(best, rows[j].ssid)
  }

  /** In the order in which the names first appear. */
  ghost predicate InAppearance(rows: seq<Network>, best: seq<Network>) {
    forall k, l :: 0 <= k < l < |best| ==> FirstIndex(rows, best[k].ssid) < FirstIndex(rows, best[l].ssid)
  }

  ghost predicate Picks(rows: seq<Network>, n: nat, best: seq<Network>, at: seq<nat>)
    requires n <= |rows|
  {
    AllChosen(rows, n, best, at) && Covers(rows, n, best) && InAppearance(rows, best)
  }

  method FindName(best: seq<Network>, ssid: string) returns (found: Option<nat>)
    ensures match found
            case Some(k) => k < |best| && best[k].ssid == ssid
            case None => !Named(best, ssid)
  {
    for k := 0 to |best|
      invariant forall j :: 0 <= j < k ==> best[j].ssid != ssid
    {
      if best[k].ssid == ssid {
        return Some(k);
      }
    }
    return None;
  }

  // ----- Sorting -----

  /** `x` goes behind everything at least as strong: a stable sort, strongest first. */
  function Insert(ys: seq<Network>, x: Network): seq<Network> {
    if ys == [] then [x]
    else if Weaker(ys[0].signal, x.signal) then [x] + ys
    else [ys[0]] + Insert(ys[1..], x)
  }

  function SortDescending(xs: seq<Network>): seq<Network> {
    if xs == [] then [] else Insert(SortDescending(xs[..|xs| - 1]), xs[|xs| - 1])
  }

  /** Stronger first; of equals, the name that appeared first. */
  predicate Precedes(rows: seq<Network>, a: Network, b: Network) {
    Weaker(b.signal, a.signal)
    || (!Weaker(a.signal, b.signal) && FirstIndex(rows, a.ssid) < FirstIndex(rows, b.ssid))
  }

  ghost predicate Ranked(rows: seq<Network>, ys: seq<Network>) {
    forall k, l :: 0 <= k < l < |ys| ==> Precedes(rows, ys[k], ys[l])
  }

  lemma {:induction false} InsertMembers(ys: seq<Network>, x: Network)
    ensures multiset(Insert(ys, x)) == multiset(ys) + multiset{x}
    decreases |ys|
  {
    if ys != [] {
      assert ys == [ys[0]] + ys[1..];
      if !Weaker(ys[0].signal, x.signal) {
        InsertMembers(ys[1..], x);
      }
    }
  }

  lemma RankedTail(rows: seq<Network>, ys: seq<Network>)
    requires Ranked(rows, ys) && ys != []
    ensures Ranked(rows, ys[1..])
    ensures forall y :: y in ys[1..] ==> Precedes(rows, ys[0], y)
  {
    hide Precedes;
    forall k, l | 0 <= k < l < |ys[1..]|
      ensures Precedes(rows, ys[1..][k], ys[1..][l])
    {
      assert Precedes(rows, ys[k + 1], ys[l + 1]);
    }
    forall y | y in ys[1..]
      ensures Precedes(rows, ys[0], y)
    {
      var l :| 0 <= l < |ys[1..]| && ys[1..][l] == y;
      assert Precedes(rows, ys[0], ys[l + 1]);
    }
  }

  lemma RankedCons(rows: seq<Network>, y: Network, ts: seq<Network>)
    requires Ranked(rows, ts) && forall t :: t in ts ==> Precedes(rows, y, t)
    ensures Ranked(rows, [y] + ts)
  {
    hide Precedes;
    var zs := [y] + ts;
    forall k, l | 0 <= k < l < |zs|
      ensures Precedes(rows, zs[k], zs[l])
    {
      assert zs[l] == ts[l - 1] && ts[l - 1] in ts;
      if k > 0 {
        assert zs[k] == ts[k - 1];
      }
    }
  }

  lemma PrecedesThrough(rows: seq<Network>, x: Network, y: Network, z: Network)
    requires Weaker(y.signal, x.signal) && (z == y || Precedes(rows, y, z))
    ensures Precedes(rows, x, z)
  {}

  lemma PrecedesLater(rows: seq<Network>, y: Network, x: Network)
    requires !Weaker(y.signal, x.signal) && FirstIndex(rows, y.ssid) < FirstIndex(rows, x.ssid)
    ensures Precedes(rows, y, x)
  {}

  lemma {:induction false} InsertRanked(rows: seq<Network>, ys: seq<Network>, x: Network)
    requires Ranked(rows, ys)
    requires forall y :: y in ys ==> FirstIndex(rows, y.ssid) < FirstIndex(rows, x.ssid)
    ensures Ranked(rows, Insert(ys, x))
    decreases |ys|
  {
    hide FirstIndex, Ranked, Precedes, Weaker;
    if ys == [] {
      SingleRanked(rows, x);
    } else {
      assert ys == [ys[0]] + ys[1..];
      RankedTail(rows, ys);
      if Weaker(ys[0].signal, x.signal) {
        forall t | t in ys
          ensures Precedes(rows, x, t)
        {
          PrecedesThrough(rows, x, ys[0], t);
        }
        RankedCons(rows, x, ys);
      } else {
        InsertRanked(rows, ys[1..], x);
        var ts := Insert(ys[1..], x);
        InsertMembers(ys[1..], x);
        PrecedesLater(rows, ys[0], x);
        forall t | t in ts
          ensures Precedes(rows, ys[0], t)
        {
          assert t in multiset(ts);
          assert t == x || t in multiset(ys[1..]);
        }
        RankedCons(rows, ys[0], ts);
      }
    }
  }

  lemma SingleRanked(rows: seq<Network>, x: Network)
    ensures Ranked(rows, [x])
  {}

  lemma LastAppears(rows: seq<Network>, xs: seq<Network>, y: Network)
    requires InAppearance(rows, xs) && xs != [] && y in xs[..|xs| - 1]
    ensures FirstIndex(rows, y.ssid) < FirstIndex(rows, xs[|xs| - 1].ssid)
  {
    hide FirstIndex;
    var j :| 0 <= j < |xs| - 1 && xs[j] == y;
  }

  lemma {:induction false} SortRanks(rows: seq<Network>, xs: seq<Network>)
    requires InAppearance(rows, xs)
    ensures Ranked(rows, SortDescending(xs)) && multiset(SortDescending(xs)) == multiset(xs)
    decreases |xs|
  {
    hide FirstIndex, Insert, Ranked;
    if xs == [] {
      NothingRanked(rows);
    } else {
      var n := |xs| - 1;
      var shorter := xs[..n];
      SortRanks(rows, shorter);
      var ys := SortDescending(shorter);
      InsertMembers(ys, xs[n]);
      assert xs == shorter + [xs[n]];
      forall y | y in ys
        ensures FirstIndex(rows, y.ssid) < FirstIndex(rows, xs[n].ssid)
      {
        assert y in multiset(ys);
        assert y in multiset(shorter);
        LastAppears(rows, xs, y);
      }
      InsertRanked(rows, ys, xs[n]);
    }
  }

  lemma NothingRanked(rows: seq<Network>)
    ensures Ranked(rows, [])
  {}

  // ----- The list -----

  lemma NotWeakerThanItself(a: Option<int>)
    ensures !Weaker(a, a)
  {}

  lemma WeakerThrough(a: Option<int>, b: Option<int>, c: Option<int>)
    requires Weaker(b, c) && !Weaker(b, a)
    ensures Weaker(a, c)
  {}

  /** A chosen row stays chosen unless the next row is stronger and of its name. */
  lemma StaysChosen(rows: seq<Network>, n: nat, i: nat)
    requires n < |rows| && Chosen(rows, n, i)
    requires rows[n].ssid == rows[i].ssid ==> !Weaker(rows[i].signal, rows[n].signal)
    ensures Chosen(rows, n + 1, i)
  {
    hide Weaker;
  }

  /** A row stronger than the chosen one of its name takes its place; so does a row of a new name. */
  lemma NewlyChosen(rows: seq<Network>, n: nat)
    requires n < |rows| && Visible(rows[n])
    requires (forall j :: 0 <= j < n ==> rows[j].ssid != rows[n].ssid)
          || (exists i ::
                && 0 <= i < n && Chosen(rows, n, i) && rows[i].ssid == rows[n].ssid
                && Weaker(rows[i].signal, rows[n].signal))
    ensures Chosen(rows, n + 1, n)
  {
    hide Weaker, Visible;
    NotWeakerThanItself(rows[n].signal);
    forall j | 0 <= j < n + 1
      ensures Yields(rows, n, j)
    {
      if j < n && rows[j].ssid == rows[n].ssid {
        var i :| 0 <= i < n && Chosen(rows, n, i) && rows[i].ssid == rows[n].ssid
            && Weaker(rows[i].signal, rows[n].signal);
        assert Yields(rows, i, j);
        WeakerThrough(rows[j].signal, rows[i].signal, rows[n].signal);
        StrongerNotWeaker(rows[j].signal, rows[n].signal);
      }
    }
  }

  lemma StrongerNotWeaker(a: Option<int>, b: Option<int>)
    requires Weaker(a, b)
    ensures !Weaker(b, a)
  {}

  /** Names are told apart by where they first appear. */
  lemma NamesApart(rows: seq<Network>, best: seq<Network>, k: nat, l: nat)
    requires InAppearance(rows, best) && k < |best| && l < |best| && k != l
    ensures best[k].ssid != best[l].ssid
  {
    hide FirstIndex;
  }

  lemma NameIsNew(rows: seq<Network>, n: nat, best: seq<Network>)
    requires n < |rows| && Covers(rows, n, best) && Visible(rows[n]) && !Named(best, rows[n].ssid)
    ensures forall j :: 0 <= j < n ==> rows[j].ssid != rows[n].ssid
    ensures FirstIndex(rows, rows[n].ssid) == n
  {
    forall j | 0 <= j < n
      ensures rows[j].ssid != rows[n].ssid
    {
      if rows[j].ssid == rows[n].ssid {
        assert Visible(rows[j]);
      }
    }
  }

  lemma NamedStill(best: seq<Network>, best': seq<Network>, ssid: string)
    requires Named(best, ssid) && |best| <= |best'| && forall k :: 0 <= k < |best| ==> best'[k].ssid == best[k].ssid
    ensures Named(best', ssid)
  {
    var k :| 0 <= k < |best| && best[k].ssid == ssid;
    assert best'[k].ssid == ssid;
  }

  lemma CoversMore(rows: seq<Network>, n: nat, best: seq<Network>, best': seq<Network>)
    requires n < |rows| && Covers(rows, n, best) && (Visible(rows[n]) ==> Named(best', rows[n].ssid))
    requires |best| <= |best'| && forall k :: 0 <= k < |best| ==> best'[k].ssid == best[k].ssid
    ensures Covers(rows, n + 1, best')
  {
    hide Named, Visible;
    forall j | 0 <= j < n + 1 && Visible(rows[j])
      ensures Named(best', rows[j].ssid)
    {
      if j < n {
        NamedStill(best, best', rows[j].ssid);
      }
    }
  }

  lemma PicksFirst(rows: seq<Network>, n: nat, best: seq<Network>, at: seq<nat>)
    requires n < |rows| && Picks(rows, n, best, at) && Visible(rows[n]) && !Named(best, rows[n].ssid)
    ensures Picks(rows, n + 1, best + [rows[n]], at + [n])
  {
    hide Chosen, FirstIndex, Covers, Visible;
    var best', at' := best + [rows[n]], at + [n];
    NameIsNew(rows, n, best);
    NewlyChosen(rows, n);
    forall k | 0 <= k < |best|
      ensures Chosen(rows, n + 1, at[k]) && FirstIndex(rows, best[k].ssid) < n
    {
      ChosenBelow(rows, n, at[k]);
      assert rows[at[k]].ssid != rows[n].ssid;
      StaysChosen(rows, n, at[k]);
      AppearsBy(rows, at[k]);
    }
    assert best'[|best|].ssid == rows[n].ssid;
    CoversMore(rows, n, best, best');
  }

  lemma ChosenBelow(rows: seq<Network>, n: nat, i: nat)
    requires n <= |rows| && Chosen(rows, n, i)
    ensures i < n
  {}

  lemma AppearsBy(rows: seq<Network>, i: nat)
    requires i < |rows|
    ensures FirstIndex(rows, rows[i].ssid) <= i
  {}

  /** A row of a name already there takes its place if it is stronger than all before. */
  lemma PicksAgain(rows: seq<Network>, n: nat, best: seq<Network>, at: seq<nat>, k: nat)
    requires n < |rows| && Picks(rows, n, best, at) && Visible(rows[n])
    requires k < |best| && best[k].ssid == rows[n].ssid
    ensures if Weaker(best[k].signal, rows[n].signal)
            then Picks(rows, n + 1, best[k := rows[n]], at[k := n])
            else Picks(rows, n + 1, best, at)
  {
    hide Chosen, FirstIndex, Covers, Visible, Weaker;
    var stronger := Weaker(best[k].signal, rows[n].signal);
    var best' := if stronger then best[k := rows[n]] else best;
    var at' := if stronger then at[k := n] else at;
    assert Chosen(rows, n, at[k]) && best[k] == rows[at[k]];
    ChosenBelow(rows, n, at[k]);
    if stronger {
      NewlyChosen(rows, n);
    }
    forall l | 0 <= l < |best|
      ensures at'[l] < n + 1 && Chosen(rows, n + 1, at'[l]) && best'[l] == rows[at'[l]]
    {
      ChosenBelow(rows, n, at[l]);
      if l != k {
        NamesApart(rows, best, k, l);
        StaysChosen(rows, n, at[l]);
      } else if !stronger {
        StaysChosen(rows, n, at[l]);
      }
    }
    assert best'[k].ssid == rows[n].ssid;
    CoversMore(rows, n, best, best');
  }

  lemma PicksHidden(rows: seq<Network>, n: nat, best: seq<Network>, at: seq<nat>)
    requires n < |rows| && Picks(rows, n, best, at) && !Visible(rows[n])
    ensures Picks(rows, n + 1, best, at)
  {
    hide Chosen, FirstIndex, Covers, Visible;
    forall k | 0 <= k < |best|
      ensures Chosen(rows, n + 1, at[k])
    {
      ChosenVisible(rows, n, at[k]);
      HiddenApart(rows[at[k]], rows[n]);
      StaysChosen(rows, n, at[k]);
    }
    CoversMore(rows, n, best, best);
  }

  lemma ChosenVisible(rows: seq<Network>, n: nat, i: nat)
    requires n <= |rows| && Chosen(rows, n, i)
    ensures i < n && Visible(rows[i])
  {}

  lemma HiddenApart(a: Network, b: Network)
    requires Visible(a) && !Visible(b)
    ensures a.ssid != b.ssid
  {}

  // ----- The same in plain numbers -----

  /** No signal is better than `best` except in having none. */
  predicate NoBetter(signal: Option<int>, best: Option<int>) {
    signal.Some? ==> best.Some? && signal.value <= best.value
  }

  predicate RealName(ssid: string) {
    ssid != "" && ssid != "--"
  }

  ghost predicate ListsName(list: seq<Network>, ssid: string) {
    exists k :: 0 <= k < |list| && list[k].ssid == ssid
  }

  /** `x` may stand before `y`: another name, with no lower a number, and if the same, by appearance. */
  ghost predicate StandsBefore(rows: seq<Network>, x: Network, y: Network) {
    && x.ssid != y.ssid && NoBetter(y.signal, x.signal)
    && (x.signal == y.signal ==> AppearsBefore(rows, x.ssid, y.ssid))
  }

  /** Every name that is neither "" nor "--", once, and no other. Each by a row of its own whose signal is
      the highest number any row of that name has, and the first such row; without a number only if no row
      of the name has one. Higher numbers first, no number last, and equals in the order in which their
      names first appear. */
  ghost predicate StrongestFirst(rows: seq<Network>, list: seq<Network>) {
    && (forall j :: 0 <= j < |rows| && RealName(rows[j].ssid) ==> ListsName(list, rows[j].ssid))
    && (forall k :: 0 <= k < |list| ==> RealName(list[k].ssid) && FirstOfBest(rows, list[k]))
    && (forall k, l :: 0 <= k < l < |list| ==> StandsBefore(rows, list[k], list[l]))
  }

  ghost predicate FirstOfBest(rows: seq<Network>, x: Network) {
    exists i: nat ::
      && i < |rows| && rows[i] == x
      && (forall j :: 0 <= j < |rows| && rows[j].ssid == x.ssid ==> NoBetter(rows[j].signal, x.signal))
      && (forall j :: 0 <= j < i && rows[j].ssid == x.ssid ==> rows[j].signal != x.signal)
  }

  /** Some row is named `a` before any is named `b`. */
  ghost predicate AppearsBefore(rows: seq<Network>, a: string, b: string) {
    exists i: nat :: i < |rows| && rows[i].ssid == a && forall j :: 0 <= j <= i ==> rows[j].ssid != b
  }

  lemma StrongestIsBest(rows: seq<Network>, x: Network)
    requires IsStrongest(rows, x)
    ensures FirstOfBest(rows, x) && RealName(x.ssid)
  {
    var i: nat :| i < |rows| && Chosen(rows, |rows|, i) && x == rows[i];
    forall j | 0 <= j < |rows| && rows[j].ssid == x.ssid
      ensures NoBetter(rows[j].signal, x.signal) && (j < i ==> rows[j].signal != x.signal)
    {
      assert Yields(rows, i, j);
    }
  }

  lemma SameNameSameSignal(rows: seq<Network>, x: Network, y: Network)
    requires FirstOfBest(rows, x) && FirstOfBest(rows, y) && x.ssid == y.ssid
    ensures x.signal == y.signal
  {}

  lemma BestAppears(rows: seq<Network>, x: Network)
    requires FirstOfBest(rows, x)
    ensures FirstIndex(rows, x.ssid) < |rows|
  {
    var i: nat :| i < |rows| && rows[i] == x;
    assert rows[i].ssid == x.ssid;
  }

  lemma AppearsFirst(rows: seq<Network>, a: string, b: string)
    requires FirstIndex(rows, a) < |rows| && FirstIndex(rows, a) < FirstIndex(rows, b)
    ensures AppearsBefore(rows, a, b)
  {
    var i := FirstIndex(rows, a);
    assert rows[i].ssid == a;
  }

  lemma RankedPair(rows: seq<Network>, x: Network, y: Network)
    requires Precedes(rows, x, y) && FirstOfBest(rows, x) && FirstOfBest(rows, y)
    ensures StandsBefore(rows, x, y)
  {
    hide FirstOfBest, FirstIndex, AppearsBefore;
    if x.ssid == y.ssid {
      SameNameSameSignal(rows, x, y);
    }
    if x.signal == y.signal {
      BestAppears(rows, x);
      AppearsFirst(rows, x.ssid, y.ssid);
    }
  }

  lemma NamedIsListed(list: seq<Network>, n: Network)
    requires RealName(n.ssid) && (Visible(n) ==> Named(list, n.ssid))
    ensures ListsName(list, n.ssid)
  {}

  lemma ListedInNumbers(rows: seq<Network>, list: seq<Network>)
    requires forall k :: 0 <= k < |list| ==> IsStrongest(rows, list[k])
    requires forall j :: 0 <= j < |rows| && Visible(rows[j]) ==> Named(list, rows[j].ssid)
    requires Ranked(rows, list)
    ensures StrongestFirst(rows, list)
  {
    hide IsStrongest, FirstOfBest, StandsBefore, Precedes, RealName, Visible, Named, ListsName;
    forall k | 0 <= k < |list|
      ensures FirstOfBest(rows, list[k]) && RealName(list[k].ssid)
    {
      StrongestIsBest(rows, list[k]);
    }
    forall k, l | 0 <= k < l < |list|
      ensures StandsBefore(rows, list[k], list[l])
    {
      RankedPair(rows, list[k], list[l]);
    }
    forall j | 0 <= j < |rows| && RealName(rows[j].ssid)
      ensures ListsName(list, rows[j].ssid)
    {
      NamedIsListed(list, rows[j]);
    }
  }

  /** `nmcli_wifi_list`: exactly the visible names, each by the first of its strongest rows; stronger
      networks first, and equally strong ones in the order in which their names first appeared. */
  method WifiList(rows: seq<Network>) returns (list: seq<Network>)
    ensures StrongestFirst(rows, list)
  {
    hide StrongestFirst, Picks, Weaker, Visible, Named, IsStrongest, Ranked, SortDescending;
    var best: seq<Network> := [];
    ghost var at: seq<nat> := [];
    NothingPicked(rows);
    for n := 0 to |rows|
      invariant Picks(rows, n, best, at)
    {
      var network := rows[n];
      if !Visible(network) {
        PicksHidden(rows, n, best, at);
        continue;
      }
      var existing := FindName(best, network.ssid);
      match existing {
        case Some(k) =>
          PicksLength(rows, n, best, at);
          PicksAgain(rows, n, best, at, k);
          if Weaker(best[k].signal, network.signal) {
            best := best[k := network];
            at := at[k := n];
          }
        case None =>
          PicksFirst(rows, n, best, at);
          best := best + [network];
          at := at + [n];
      }
    }
    list := SortDescending(best);
    Listed(rows, best, at);
    ListedInNumbers(rows, list);
  }

  lemma NothingPicked(rows: seq<Network>)
    ensures Picks(rows, 0, [], [])
  {}

  lemma PicksLength(rows: seq<Network>, n: nat, best: seq<Network>, at: seq<nat>)
    requires n <= |rows| && Picks(rows, n, best, at)
    ensures |at| == |best|
  {}

  lemma Listed(rows: seq<Network>, best: seq<Network>, at: seq<nat>)
    requires Picks(rows, |rows|, best, at)
    ensures var list := SortDescending(best);
            && (forall k :: 0 <= k < |list| ==> IsStrongest(rows, list[k]))
            && (forall j :: 0 <= j < |rows| && Visible(rows[j]) ==> Named(list, rows[j].ssid))
            && Ranked(rows, list)
  {
    hide Chosen, FirstIndex, Ranked, SortDescending, Visible;
    var list := SortDescending(best);
    SortRanks(rows, best);
    forall k | 0 <= k < |list|
      ensures IsStrongest(rows, list[k])
    {
      assert list[k] in multiset(list);
      assert list[k] in multiset(best);
      var l :| 0 <= l < |best| && best[l] == list[k];
      ChosenBelow(rows, |rows|, at[l]);
      assert Chosen(rows, |rows|, at[l]) && list[k] == rows[at[l]];
    }
    forall j | 0 <= j < |rows| && Visible(rows[j])
      ensures Named(list, rows[j].ssid)
    {
      var l :| 0 <= l < |best| && best[l].ssid == rows[j].ssid;
      assert best[l] in multiset(best);
      assert best[l] in multiset(list);
      var k :| 0 <= k < |list| && list[k] == best[l];
      assert list[k].ssid == rows[j].ssid;
    }
  }
}
