/** The flood fill of `Board.CheckBlastTile`
    (Assets/Module/Game/Core/Board/Board.cs:141-201) as a function: a
    breadth-first search from a seed cell over cells holding the seed's item
    type, following only the directions of a mask, recording the cells in a
    buffer of fixed capacity and tallying per direction how many new cells
    each direction discovered. The imperative method in module Match is
    proved to compute exactly this function. */
module FloodFill {
  import opened Directions
  import opened Cells
  import ItemTypes
  import Wrappers

  /** What one fill reads: the board, where it starts, which directions it
      follows and how many cells its buffer can hold. */
  datatype FillEnv = FillEnv(
    cells: seq<BoardCell>,
    items: seq<ItemTypes.Item>,
    seed: int,
    mask: Direction,
    capacity: int)

  /** The queue of cells still to expand, the buffer's used prefix and the
      per-direction tallies. */
  datatype FillState = FillState(queue: seq<int>, selected: seq<int>, tallies: seq<int>)

  predicate EnvOk(env: FillEnv) {
    WellFormed(env.cells, |env.items|) && 0 <= env.seed < |env.cells| && env.capacity >= 0
  }

  /** The type of the item a cell holds. */
  function TypeAt(env: FillEnv, c: int): ItemTypes.ItemType
    requires EnvOk(env) && 0 <= c < |env.cells|
  {
    env.items[env.cells[c].itemIndex].itemType
  }

  /** The type every selected cell must hold: that of the seed's item. */
  function Target(env: FillEnv): ItemTypes.ItemType
    requires EnvOk(env)
  {
    TypeAt(env, env.seed)
  }

  /** The eight candidate cells around `c`, indexed by dense direction index:
      the four stored links, then the diagonals derived through the up and
      down neighbours. */
  function Nbs(env: FillEnv, c: int): (nbs: seq<int>)
    requires EnvOk(env) && 0 <= c < |env.cells|
    ensures |nbs| == Count && forall i :: 0 <= i < Count ==> Link(nbs[i], |env.cells|)
  {
    var cells := env.cells;
    var cell := cells[c];
    [cell.upCellIndex, cell.downCellIndex, cell.rightCellIndex, cell.leftCellIndex,
     if cell.upCellIndex != -1 then cells[cell.upCellIndex].rightCellIndex else -1,
     if cell.upCellIndex != -1 then cells[cell.upCellIndex].leftCellIndex else -1,
     if cell.downCellIndex != -1 then cells[cell.downCellIndex].rightCellIndex else -1,
     if cell.downCellIndex != -1 then cells[cell.downCellIndex].leftCellIndex else -1]
  }

  /** The neighbour of `c` in direction `i` may join the selection: the mask
      allows the direction, the neighbour exists and holds the target type. */
  predicate Joinable(env: FillEnv, c: int, i: nat)
    requires EnvOk(env) && 0 <= c < |env.cells| && i < Count
  {
    HasFlag(env.mask, Flag(i)) && Nbs(env, c)[i] != -1 && TypeAt(env, Nbs(env, c)[i]) == Target(env)
  }

  predicate StateOk(env: FillEnv, st: FillState) {
    |st.tallies| == Count && |st.selected| <= env.capacity &&
    (forall k :: 0 <= k < |st.queue| ==> 0 <= st.queue[k] < |env.cells|) &&
    (forall k :: 0 <= k < |st.selected| ==> 0 <= st.selected[k] < |env.cells|)
  }

  /** `st2` extends `st1`: the selection only grows, and the queue gained
      exactly the newly selected cells. */
  predicate Extends(st1: FillState, st2: FillState) {
    |st1.selected| <= |st2.selected| &&
    st2.selected[..|st1.selected|] == st1.selected &&
    st2.queue == st1.queue + st2.selected[|st1.selected|..]
  }

  /** The inner `for` loop over the eight directions of the dequeued cell `c`,
      from direction `i` on. `None` is the exception raised by writing past
      the end of the selection buffer. */
  function ScanDirs(env: FillEnv, c: int, i: nat, st: FillState): (r: Wrappers.Option<FillState>)
    requires EnvOk(env) && 0 <= c < |env.cells| && i <= Count && StateOk(env, st)
    ensures r.Some? ==> StateOk(env, r.value) && Extends(st, r.value)
    decreases Count - i
  {
    if i == Count then Wrappers.Some(st)
    else
      var nb := Nbs(env, c)[i];
      if !HasFlag(env.mask, Flag(i)) || nb == -1 || nb in st.selected then
        ScanDirs(env, c, i + 1, st)
      else if TypeAt(env, nb) != Target(env) then
        ScanDirs(env, c, i + 1, st)
      else if |st.selected| == env.capacity then
        Wrappers.None
      else
        var next := FillState(st.queue + [nb], st.selected + [nb], st.tallies[i := st.tallies[i] + 1]);
        AddKeepsStateOk(env, st, nb, i);
        var r := ScanDirs(env, c, i + 1, next);
        AddExtends(st, next, nb, r);
        r
  }

  /** A scan that continues after selecting `nb` extends the state from
      before the selection. */
  lemma AddExtends(st: FillState, next: FillState, nb: int, r: Wrappers.Option<FillState>)
    requires next.queue == st.queue + [nb] && next.selected == st.selected + [nb]
    requires r.Some? ==> Extends(next, r.value)
    ensures r.Some? ==> Extends(st, r.value)
  {
    if r.Some? {
      var s := r.value.selected;
      assert s[..|st.selected|] == s[..|next.selected|][..|st.selected|];
      assert s[|st.selected|..] == [nb] + s[|next.selected|..];
    }
  }

  /** One direction of the scan, unfolded: a neighbour that may join and
      fits in the buffer is selected, queued and tallied. */
  lemma ScanSelects(env: FillEnv, c: int, i: nat, st: FillState)
    requires EnvOk(env) && 0 <= c < |env.cells| && i < Count && StateOk(env, st)
    requires Joinable(env, c, i) && Nbs(env, c)[i] !in st.selected && |st.selected| < env.capacity
    ensures var nb := Nbs(env, c)[i];
      var next := FillState(st.queue + [nb], st.selected + [nb], st.tallies[i := st.tallies[i] + 1]);
      StateOk(env, next) && ScanDirs(env, c, i, st) == ScanDirs(env, c, i + 1, next)
  {
    AddKeepsStateOk(env, st, Nbs(env, c)[i], i);
  }

  /** Selecting, queueing and tallying a cell of the board keeps a state
      that has room for it well formed. */
  lemma AddKeepsStateOk(env: FillEnv, st: FillState, nb: int, i: nat)
    requires StateOk(env, st) && 0 <= nb < |env.cells| && i < Count && |st.selected| < env.capacity
    ensures StateOk(env, FillState(st.queue + [nb], st.selected + [nb], st.tallies[i := st.tallies[i] + 1]))
  {
    var next := FillState(st.queue + [nb], st.selected + [nb], st.tallies[i := st.tallies[i] + 1]);
    assert forall k :: 0 <= k < |next.queue| ==> next.queue[k] == if k < |st.queue| then st.queue[k] else nb;
    assert forall k :: 0 <= k < |next.selected| ==> next.selected[k] == if k < |st.selected| then st.selected[k] else nb;
  }

  /** One direction of the scan, unfolded: a neighbour that may join but
      does not fit in the buffer aborts the fill. */
  lemma ScanOverflows(env: FillEnv, c: int, i: nat, st: FillState)
    requires EnvOk(env) && 0 <= c < |env.cells| && i < Count && StateOk(env, st)
    requires Joinable(env, c, i) && Nbs(env, c)[i] !in st.selected && |st.selected| == env.capacity
    ensures ScanDirs(env, c, i, st) == Wrappers.None
  {
  }

  /** One direction of the scan, unfolded: a neighbour that may not join,
      or is selected already, is passed over. */
  lemma ScanSkips(env: FillEnv, c: int, i: nat, st: FillState)
    requires EnvOk(env) && 0 <= c < |env.cells| && i < Count && StateOk(env, st)
    requires !Joinable(env, c, i) || Nbs(env, c)[i] in st.selected
    ensures ScanDirs(env, c, i, st) == ScanDirs(env, c, i + 1, st)
  {
  }

  /** One turn of the outer `while` loop: dequeue a cell, select it if the
      buffer does not hold it yet, then scan its directions. */
  function Step(env: FillEnv, st: FillState): (r: Wrappers.Option<FillState>)
    requires EnvOk(env) && StateOk(env, st) && st.queue != []
    ensures r.Some? ==> StateOk(env, r.value)
    ensures r.Some? ==> |r.value.selected| >= |st.selected|
    ensures r.Some? ==> |r.value.selected| > |st.selected| || |r.value.queue| < |st.queue|
  {
    var c := st.queue[0];
    var rest := st.queue[1..];
    if c !in st.selected then
      if |st.selected| == env.capacity then Wrappers.None
      else ScanDirs(env, c, 0, FillState(rest, st.selected + [c], st.tallies))
    else
      ScanDirs(env, c, 0, FillState(rest, st.selected, st.tallies))
  }

  /** One turn, unfolded: the dequeued cell is selected first unless it is
      selected already (only the seed is not), then its directions are
      scanned. */
  lemma StepDequeues(env: FillEnv, st: FillState)
    requires EnvOk(env) && StateOk(env, st) && st.queue != []
    ensures var c := st.queue[0];
      var rest := st.queue[1..];
      0 <= c < |env.cells| &&
      (c in st.selected ==>
         StateOk(env, FillState(rest, st.selected, st.tallies)) &&
         Step(env, st) == ScanDirs(env, c, 0, FillState(rest, st.selected, st.tallies))) &&
      (c !in st.selected && |st.selected| == env.capacity ==> Step(env, st) == Wrappers.None) &&
      (c !in st.selected && |st.selected| < env.capacity ==>
         StateOk(env, FillState(rest, st.selected + [c], st.tallies)) &&
         Step(env, st) == ScanDirs(env, c, 0, FillState(rest, st.selected + [c], st.tallies)))
  {
  }

  /** The outer loop, run until the queue is empty. */
  function Run(env: FillEnv, st: FillState): (r: Wrappers.Option<FillState>)
    requires EnvOk(env) && StateOk(env, st)
    ensures r.Some? ==> StateOk(env, r.value) && r.value.queue == []
    decreases env.capacity - |st.selected|, |st.queue|, 1
  {
    if st.queue == [] then Wrappers.Some(st) else Turn(env, st)
  }

  /** A turn of the outer loop on a non-empty queue, then the rest of the
      loop. */
  function Turn(env: FillEnv, st: FillState): (r: Wrappers.Option<FillState>)
    requires EnvOk(env) && StateOk(env, st) && st.queue != []
    ensures r.Some? ==> StateOk(env, r.value) && r.value.queue == []
    decreases env.capacity - |st.selected|, |st.queue|, 0
  {
    match Step(env, st)
    case None => Wrappers.None
    case Some(next) => Run(env, next)
  }

  /** A turn that completes hands the rest of the loop to the state it
      produced, which is further along: more cells selected, or as many and
      a shorter queue. */
  lemma TurnAdvances(env: FillEnv, st: FillState, next: FillState)
    requires EnvOk(env) && StateOk(env, st) && st.queue != [] && Step(env, st) == Wrappers.Some(next)
    ensures StateOk(env, next) && Run(env, st) == Run(env, next)
    ensures |st.selected| < |next.selected| <= env.capacity ||
            (|next.selected| == |st.selected| && |next.queue| < |st.queue|)
  {
    assert Run(env, st) == Turn(env, st);
  }

  /** All tallies zero, as `countedTiles.Fill(0)` leaves them. */
  function ZeroTallies(): (z: seq<int>)
    ensures |z| == Count && forall j :: 0 <= j < Count ==> z[j] == 0
  {
    seq(Count, _ => 0)
  }

  /** The state before the first turn: the seed queued, nothing selected. */
  function Start(env: FillEnv): FillState {
    FillState([env.seed], [], ZeroTallies())
  }

  /** The whole fill: the final state, or `None` if the buffer overflowed. */
  function Fill(env: FillEnv): (r: Wrappers.Option<FillState>)
    requires EnvOk(env)
    ensures r.Some? ==> |r.value.tallies| == Count && |r.value.selected| <= env.capacity
    ensures r.Some? ==> forall k :: 0 <= k < |r.value.selected| ==> 0 <= r.value.selected[k] < |env.cells|
  {
    Run(env, Start(env))
  }

  // ---------------------------------------------------------------------
  // What the fill guarantees

  predicate Distinct(s: seq<int>) {
    forall i, j :: 0 <= i < j < |s| ==> s[i] != s[j]
  }

  function Sum(s: seq<int>): int {
    if s == [] then 0 else Sum(s[..|s| - 1]) + s[|s| - 1]
  }

  /** `x` is reached from a cell of `prev` in one step of a masked direction. */
  predicate ReachedFrom(env: FillEnv, prev: seq<int>, x: int)
    requires EnvOk(env)
  {
    exists j, i :: 0 <= j < |prev| && 0 <= i < Count && 0 <= prev[j] < |env.cells| &&
      HasFlag(env.mask, Flag(i)) && Nbs(env, prev[j])[i] == x
  }

  /** Every neighbour of `c` that may join the selection is in `sel`. */
  predicate Closed(env: FillEnv, c: int, sel: seq<int>)
    requires EnvOk(env) && 0 <= c < |env.cells|
  {
    forall i :: 0 <= i < Count && Joinable(env, c, i) ==> Nbs(env, c)[i] in sel
  }

  /** Every entry is a cell holding the target type. */
  predicate SameType(env: FillEnv, sel: seq<int>)
    requires EnvOk(env)
  {
    forall k :: 0 <= k < |sel| ==> 0 <= sel[k] < |env.cells| && TypeAt(env, sel[k]) == Target(env)
  }

  /** Entry `k` is one masked step from an earlier entry. */
  predicate ReachedAt(env: FillEnv, sel: seq<int>, k: int)
    requires EnvOk(env) && 0 <= k < |sel|
  {
    ReachedFrom(env, sel[..k], sel[k])
  }

  /** Every entry after the first is one masked step from an earlier entry. */
  predicate AllReached(env: FillEnv, sel: seq<int>)
    requires EnvOk(env)
  {
    forall k :: 1 <= k < |sel| ==> ReachedAt(env, sel, k)
  }

  /** The tallies are non-negative, count only masked directions, and add up
      to `n - 1`. */
  predicate TalliesOk(env: FillEnv, t: seq<int>, n: int) {
    |t| == Count && Sum(t) == n - 1 &&
    forall j :: 0 <= j < Count ==> t[j] >= 0 && (t[j] > 0 ==> HasFlag(env.mask, Flag(j)))
  }

  predicate QueueIn(q: seq<int>, sel: seq<int>) {
    forall k :: 0 <= k < |q| ==> q[k] in sel
  }

  /** The invariant of a fill that has selected its seed. */
  predicate Core(env: FillEnv, st: FillState)
    requires EnvOk(env)
  {
    StateOk(env, st) && |st.selected| > 0 && st.selected[0] == env.seed &&
    Distinct(st.selected) && SameType(env, st.selected) && QueueIn(st.queue, st.selected) &&
    TalliesOk(env, st.tallies, |st.selected|) && AllReached(env, st.selected)
  }

  /** Entry `k` of `sel` is in `q`, is `c`, or is expanded. */
  predicate ExpandedAt(env: FillEnv, sel: seq<int>, q: seq<int>, c: int, k: int)
    requires EnvOk(env) && 0 <= k < |sel|
  {
    sel[k] in q || sel[k] == c || (0 <= sel[k] < |env.cells| && Closed(env, sel[k], sel))
  }

  /** Every entry of `sel` is in `q`, is `c`, or is expanded. */
  predicate ClosedBut(env: FillEnv, sel: seq<int>, q: seq<int>, c: int)
    requires EnvOk(env)
  {
    forall k :: 0 <= k < |sel| ==> ExpandedAt(env, sel, q, c, k)
  }

  /** Every selected cell is expanded already, or still queued (no cell is
      -1, so no cell is exempt). */
  predicate ClosedOrQueued(env: FillEnv, st: FillState)
    requires EnvOk(env)
  {
    ClosedBut(env, st.selected, st.queue, -1)
  }

  predicate FillInv(env: FillEnv, st: FillState)
    requires EnvOk(env)
  {
    st == Start(env) || (Core(env, st) && ClosedOrQueued(env, st))
  }

  /** The directions of `c` below `i` are done. */
  predicate DoneBelow(env: FillEnv, c: int, i: nat, sel: seq<int>)
    requires EnvOk(env) && 0 <= c < |env.cells| && i <= Count
  {
    forall j :: 0 <= j < i && Joinable(env, c, j) ==> Nbs(env, c)[j] in sel
  }

  /** While cell `c` is scanned from direction `i` on. */
  predicate ScanPre(env: FillEnv, c: int, i: nat, st: FillState)
    requires EnvOk(env) && 0 <= c < |env.cells| && i <= Count
  {
    Core(env, st) && c in st.selected && DoneBelow(env, c, i, st.selected) &&
    ClosedBut(env, st.selected, st.queue, c)
  }

  lemma {:induction false} SumUpdate(s: seq<int>, i: nat, v: int)
    requires i < |s|
    ensures Sum(s[i := v]) == Sum(s) - s[i] + v
  {
    if i < |s| - 1 {
      assert s[i := v][..|s| - 1] == s[..|s| - 1][i := v];
      SumUpdate(s[..|s| - 1], i, v);
    } else {
      assert s[i := v][..|s| - 1] == s[..|s| - 1];
    }
  }

  lemma {:induction false} SumZero(n: nat)
    ensures Sum(seq(n, _ => 0)) == 0
  {
    if n > 0 {
      assert seq(n, _ => 0)[..n - 1] == seq(n - 1, _ => 0);
      SumZero(n - 1);
    }
  }

  lemma AppendDistinct(sel: seq<int>, x: int)
    requires Distinct(sel) && x !in sel
    ensures Distinct(sel + [x])
  {
  }

  lemma AppendReached(env: FillEnv, sel: seq<int>, c: int, i: nat)
    requires EnvOk(env) && 0 <= c < |env.cells| && i < Count
    requires AllReached(env, sel) && c in sel && HasFlag(env.mask, Flag(i))
    ensures AllReached(env, sel + [Nbs(env, c)[i]])
  {
    var sel2 := sel + [Nbs(env, c)[i]];
    forall k | 1 <= k < |sel2|
      ensures ReachedAt(env, sel2, k)
    {
      if k < |sel| {
        assert ReachedAt(env, sel, k);
        assert sel2[..k] == sel[..k];
      } else {
        assert sel2[..k] == sel;
        var p :| 0 <= p < |sel| && sel[p] == c;
        assert 0 <= sel[p] < |env.cells| && HasFlag(env.mask, Flag(i)) && Nbs(env, sel[p])[i] == sel2[k];
      }
    }
  }

  lemma AppendTallies(env: FillEnv, t: seq<int>, n: int, i: nat)
    requires TalliesOk(env, t, n) && i < Count && HasFlag(env.mask, Flag(i))
    ensures TalliesOk(env, t[i := t[i] + 1], n + 1)
  {
    SumUpdate(t, i, t[i] + 1);
  }

  lemma AppendClosedBut(env: FillEnv, sel: seq<int>, q: seq<int>, c: int, x: int)
    requires EnvOk(env) && ClosedBut(env, sel, q, c)
    ensures ClosedBut(env, sel + [x], q + [x], c)
  {
    var sel2 := sel + [x];
    forall k | 0 <= k < |sel2|
      ensures ExpandedAt(env, sel2, q + [x], c, k)
    {
      if k < |sel| {
        assert ExpandedAt(env, sel, q, c, k);
        if sel[k] !in q && sel[k] != c {
          assert Closed(env, sel[k], sel);
        }
      }
    }
  }

  lemma AppendDoneBelow(env: FillEnv, c: int, i: nat, sel: seq<int>, x: int)
    requires EnvOk(env) && 0 <= c < |env.cells| && i < Count
    requires DoneBelow(env, c, i, sel) && x == Nbs(env, c)[i]
    ensures DoneBelow(env, c, i + 1, sel + [x])
  {
  }

  /** Selecting a joinable neighbour of the scanned cell keeps the invariant. */
  lemma AddKeepsScanPre(env: FillEnv, c: int, i: nat, st: FillState)
    requires EnvOk(env) && 0 <= c < |env.cells| && i < Count && StateOk(env, st)
    requires ScanPre(env, c, i, st)
    requires Joinable(env, c, i) && Nbs(env, c)[i] !in st.selected && |st.selected| < env.capacity
    ensures
      var nb := Nbs(env, c)[i];
      var st2 := FillState(st.queue + [nb], st.selected + [nb], st.tallies[i := st.tallies[i] + 1]);
      StateOk(env, st2) && ScanPre(env, c, i + 1, st2)
  {
    var nb := Nbs(env, c)[i];
    var st2 := FillState(st.queue + [nb], st.selected + [nb], st.tallies[i := st.tallies[i] + 1]);
    assert Distinct(st2.selected) by { AppendDistinct(st.selected, nb); }
    assert AllReached(env, st2.selected) by { AppendReached(env, st.selected, c, i); }
    assert TalliesOk(env, st2.tallies, |st2.selected|) by { AppendTallies(env, st.tallies, |st.selected|, i); }
    assert ClosedBut(env, st2.selected, st2.queue, c) by { AppendClosedBut(env, st.selected, st.queue, c, nb); }
    assert DoneBelow(env, c, i + 1, st2.selected) by { AppendDoneBelow(env, c, i, st.selected, nb); }
    assert SameType(env, st2.selected);
    assert QueueIn(st2.queue, st2.selected);
    assert StateOk(env, st2);
  }

  /** Skipping a direction that cannot join keeps the invariant. */
  lemma SkipKeepsScanPre(env: FillEnv, c: int, i: nat, st: FillState)
    requires EnvOk(env) && 0 <= c < |env.cells| && i < Count && StateOk(env, st)
    requires ScanPre(env, c, i, st)
    requires !Joinable(env, c, i) || Nbs(env, c)[i] in st.selected
    ensures ScanPre(env, c, i + 1, st)
  {
  }

  /** Once all eight directions are done, `c` is expanded. */
  lemma ScanDoneCloses(env: FillEnv, c: int, st: FillState)
    requires EnvOk(env) && 0 <= c < |env.cells| && StateOk(env, st)
    requires ScanPre(env, c, Count, st)
    ensures ClosedOrQueued(env, st)
  {
    assert Closed(env, c, st.selected);
    forall k | 0 <= k < |st.selected|
      ensures ExpandedAt(env, st.selected, st.queue, -1, k)
    {
      assert ExpandedAt(env, st.selected, st.queue, c, k);
    }
  }

  /** A finished (part of a) fill, unless it overflowed, satisfies the core
      invariant with every selected cell expanded or queued. */
  predicate InvIfSome(env: FillEnv, r: Wrappers.Option<FillState>)
    requires EnvOk(env)
  {
    r.Some? ==> Core(env, r.value) && ClosedOrQueued(env, r.value)
  }

  lemma {:induction false} ScanKeepsInv(env: FillEnv, c: int, i: nat, st: FillState)
    requires EnvOk(env) && 0 <= c < |env.cells| && i <= Count && StateOk(env, st)
    requires ScanPre(env, c, i, st)
    ensures InvIfSome(env, ScanDirs(env, c, i, st))
    decreases Count - i
  {
    if i == Count {
      ScanDoneCloses(env, c, st);
    } else {
      var nb := Nbs(env, c)[i];
      if !Joinable(env, c, i) || nb in st.selected {
        ScanSkips(env, c, i, st);
        SkipKeepsScanPre(env, c, i, st);
        ScanKeepsInv(env, c, i + 1, st);
      } else if |st.selected| == env.capacity {
        ScanOverflows(env, c, i, st);
      } else {
        ScanSelects(env, c, i, st);
        AddKeepsScanPre(env, c, i, st);
        ScanKeepsInv(env, c, i + 1, FillState(st.queue + [nb], st.selected + [nb], st.tallies[i := st.tallies[i] + 1]));
      }
    }
  }

  /** The first turn selects the seed. */
  lemma FirstTurnScanPre(env: FillEnv)
    requires EnvOk(env) && 0 < env.capacity
    ensures StateOk(env, FillState([], [env.seed], ZeroTallies()))
    ensures ScanPre(env, env.seed, 0, FillState([], [env.seed], ZeroTallies()))
  {
    var st1 := FillState([], [env.seed], ZeroTallies());
    SumZero(Count);
    assert TalliesOk(env, st1.tallies, 1);
    assert Core(env, st1);
  }

  /** A later turn dequeues a cell that is selected already. */
  lemma LaterTurnScanPre(env: FillEnv, st: FillState)
    requires EnvOk(env) && StateOk(env, st) && st.queue != []
    requires Core(env, st) && ClosedOrQueued(env, st)
    ensures StateOk(env, FillState(st.queue[1..], st.selected, st.tallies))
    ensures ScanPre(env, st.queue[0], 0, FillState(st.queue[1..], st.selected, st.tallies))
  {
    var c := st.queue[0];
    var rest := st.queue[1..];
    var st1 := FillState(rest, st.selected, st.tallies);
    assert QueueIn(rest, st.selected);
    assert Core(env, st1);
    forall k | 0 <= k < |st.selected|
      ensures ExpandedAt(env, st.selected, rest, c, k)
    {
      assert ExpandedAt(env, st.selected, st.queue, -1, k);
      if st.selected[k] in st.queue && st.selected[k] != c {
        var q :| 0 <= q < |st.queue| && st.queue[q] == st.selected[k];
        assert rest[q - 1] == st.selected[k];
      }
    }
  }

  lemma StepKeepsInv(env: FillEnv, st: FillState)
    requires EnvOk(env) && StateOk(env, st) && st.queue != [] && FillInv(env, st)
    ensures Step(env, st).Some? ==> FillInv(env, Step(env, st).value)
  {
    var c := st.queue[0];
    var rest := st.queue[1..];
    if st == Start(env) {
      if |st.selected| < env.capacity {
        var st1 := FillState(rest, [c], st.tallies);
        assert st.selected == [] && c !in st.selected && st.selected + [c] == [c];
        assert Step(env, st) == ScanDirs(env, c, 0, st1);
        FirstTurnScanPre(env);
        ScanKeepsInv(env, c, 0, st1);
      }
    } else {
      var st1 := FillState(rest, st.selected, st.tallies);
      assert c in st.selected;
      assert Step(env, st) == ScanDirs(env, c, 0, st1);
      LaterTurnScanPre(env, st);
      ScanKeepsInv(env, c, 0, st1);
    }
  }

  lemma {:induction false} RunKeepsInv(env: FillEnv, st: FillState)
    requires EnvOk(env) && StateOk(env, st) && FillInv(env, st)
    ensures InvIfSome(env, Run(env, st))
    decreases env.capacity - |st.selected|, |st.queue|
  {
    if st.queue != [] {
      StepKeepsInv(env, st);
      assert Run(env, st) == Turn(env, st);
      match Step(env, st)
      case None =>
      case Some(next) => RunKeepsInv(env, next);
    }
  }

  /** A completed fill: the seed is entry 0, the entries are pairwise
      distinct cells holding the seed's item type, every later entry is one
      masked step from an earlier one, the tallies count only masked
      directions and add up to the number of entries after the seed. */
  lemma FillSound(env: FillEnv)
    requires EnvOk(env) && Fill(env).Some?
    ensures var st := Fill(env).value;
      |st.selected| >= 1 && st.selected[0] == env.seed && Distinct(st.selected) &&
      SameType(env, st.selected) && AllReached(env, st.selected) &&
      TalliesOk(env, st.tallies, |st.selected|)
  {
    RunKeepsInv(env, Start(env));
  }

  /** A completed fill is complete: every cell that could join the selection
      from a selected cell is selected, so the selection is the whole
      same-type region connected to the seed through the mask. */
  lemma FillComplete(env: FillEnv)
    requires EnvOk(env) && Fill(env).Some?
    ensures var sel := Fill(env).value.selected;
      forall k :: 0 <= k < |sel| ==> Closed(env, sel[k], sel)
  {
    RunKeepsInv(env, Start(env));
    var st := Fill(env).value;
    forall k | 0 <= k < |st.selected|
      ensures Closed(env, st.selected[k], st.selected)
    {
      assert ExpandedAt(env, st.selected, st.queue, -1, k);
    }
  }

  // ---------------------------------------------------------------------
  // When the selection buffer is large enough

  /** `region` holds the seed, holds only cells, and holds every neighbour
      of its cells in a direction of the mask. */
  predicate RegionClosed(env: FillEnv, region: set<int>)
    requires EnvOk(env)
  {
    env.seed in region &&
    (forall c :: c in region ==> 0 <= c < |env.cells|) &&
    (forall c, i ::
       (c in region && 0 <= c < |env.cells| && 0 <= i < Count && HasFlag(env.mask, Flag(i)) &&
        Nbs(env, c)[i] != -1) ==> Nbs(env, c)[i] in region)
  }

  predicate Inside(st: FillState, region: set<int>) {
    (forall k :: 0 <= k < |st.queue| ==> st.queue[k] in region) &&
    (forall k :: 0 <= k < |st.selected| ==> st.selected[k] in region)
  }

  /** Pigeonhole: a sequence of distinct members of `region` is no longer
      than `region` is large. */
  lemma {:induction false} DistinctWithin(s: seq<int>, region: set<int>)
    requires Distinct(s) && forall k :: 0 <= k < |s| ==> s[k] in region
    ensures |s| <= |region|
  {
    if s != [] {
      var x := s[|s| - 1];
      var init := s[..|s| - 1];
      assert forall k :: 0 <= k < |init| ==> init[k] == s[k] && s[k] != x;
      DistinctWithin(init, region - {x});
    }
  }

  /** Selecting a joinable neighbour inside the region keeps the selection
      distinct and inside the region, and the buffer has room for it. */
  lemma AddWithin(env: FillEnv, c: int, i: nat, st: FillState, region: set<int>)
    requires EnvOk(env) && 0 <= c < |env.cells| && i < Count && StateOk(env, st)
    requires RegionClosed(env, region) && |region| <= env.capacity && c in region
    requires Distinct(st.selected) && Inside(st, region)
    requires Joinable(env, c, i) && Nbs(env, c)[i] !in st.selected
    ensures |st.selected| < env.capacity
    ensures var nb := Nbs(env, c)[i];
      Distinct(st.selected + [nb]) &&
      Inside(FillState(st.queue + [nb], st.selected + [nb], st.tallies[i := st.tallies[i] + 1]), region)
  {
    var nb := Nbs(env, c)[i];
    var sel2 := st.selected + [nb];
    assert nb in region;
    AppendDistinct(st.selected, nb);
    assert forall k :: 0 <= k < |sel2| ==> sel2[k] in region;
    DistinctWithin(sel2, region);
  }

  lemma {:induction false} ScanWithin(env: FillEnv, c: int, i: nat, st: FillState, region: set<int>)
    requires EnvOk(env) && 0 <= c < |env.cells| && i <= Count && StateOk(env, st)
    requires RegionClosed(env, region) && |region| <= env.capacity && c in region
    requires Distinct(st.selected) && Inside(st, region)
    ensures ScanDirs(env, c, i, st).Some?
    ensures Distinct(ScanDirs(env, c, i, st).value.selected) && Inside(ScanDirs(env, c, i, st).value, region)
    decreases Count - i
  {
    if i < Count {
      var nb := Nbs(env, c)[i];
      if !Joinable(env, c, i) || nb in st.selected {
        ScanSkips(env, c, i, st);
        ScanWithin(env, c, i + 1, st, region);
      } else {
        AddWithin(env, c, i, st, region);
        ScanSelects(env, c, i, st);
        ScanWithin(env, c, i + 1, FillState(st.queue + [nb], st.selected + [nb], st.tallies[i := st.tallies[i] + 1]), region);
      }
    }
  }

  lemma StepWithin(env: FillEnv, st: FillState, region: set<int>)
    requires EnvOk(env) && StateOk(env, st) && st.queue != []
    requires RegionClosed(env, region) && |region| <= env.capacity
    requires Distinct(st.selected) && Inside(st, region)
    ensures Step(env, st).Some?
    ensures Distinct(Step(env, st).value.selected) && Inside(Step(env, st).value, region)
  {
    var c := st.queue[0];
    var rest := st.queue[1..];
    assert Inside(FillState(rest, st.selected, st.tallies), region);
    if c !in st.selected {
      var sel2 := st.selected + [c];
      assert Distinct(sel2);
      assert forall k :: 0 <= k < |sel2| ==> sel2[k] in region;
      DistinctWithin(sel2, region);
      ScanWithin(env, c, 0, FillState(rest, sel2, st.tallies), region);
    } else {
      ScanWithin(env, c, 0, FillState(rest, st.selected, st.tallies), region);
    }
  }

  lemma {:induction false} RunWithin(env: FillEnv, st: FillState, region: set<int>)
    requires EnvOk(env) && StateOk(env, st)
    requires RegionClosed(env, region) && |region| <= env.capacity
    requires Distinct(st.selected) && Inside(st, region)
    ensures Run(env, st).Some? && Inside(Run(env, st).value, region)
    decreases env.capacity - |st.selected|, |st.queue|
  {
    if st.queue != [] {
      StepWithin(env, st, region);
      assert Run(env, st) == Turn(env, st);
      RunWithin(env, Step(env, st).value, region);
    }
  }

  /** If a region closed under the mask's steps fits in the buffer, the fill
      never overflows and selects only cells of that region. */
  lemma FillWithin(env: FillEnv, region: set<int>)
    requires EnvOk(env) && RegionClosed(env, region) && |region| <= env.capacity
    ensures Fill(env).Some?
    ensures forall k :: 0 <= k < |Fill(env).value.selected| ==> Fill(env).value.selected[k] in region
  {
    RunWithin(env, Start(env), region);
  }
}
