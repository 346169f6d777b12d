/**
 * The bus seat layout designer: a grid of 70 cells, each active (a seat) or
 * not, saved as the ascending list of active indices with `total_seats` set to
 * their number.
 */
module LayoutDesigner {
  import opened JsValues

  const GridSize: nat := 70

  /** Every index of `indices` below `n` is nonnegative and they ascend strictly. */
  predicate StrictlyIncreasing(indices: seq<int>)
  {
    forall i, j :: 0 <= i < j < |indices| ==> indices[i] < indices[j]
  }

  /**
   * `grid` is what the `reduce` builds from `indices`: it starts as 70 false
   * cells and `acc[idx] = true` sets cell idx, growing the array past its end
   * (the cells skipped over are holes, which every later use reads as false);
   * a negative idx names a property, not a cell, and changes no cell.
   */
  predicate DecodesTo(indices: seq<int>, grid: seq<bool>)
  {
    && |grid| >= GridSize
    && (forall i :: 0 <= i < |grid| ==> (grid[i] <==> i in indices))
    && (forall x :: x in indices && x >= 0 ==> x < |grid|)
    && (|grid| > GridSize ==> |grid| - 1 in indices)
  }

  /** The initial `seatLayout`: a saved layout decoded, or 70 inactive cells when the bus has none. */
  method DecodeLayout(saved: Option<seq<int>>) returns (grid: seq<bool>)
    ensures DecodesTo(if saved.Some? then saved.value else [], grid)
  {
    grid := seq(GridSize, _ => false);
    if saved.None? {
      return;
    }
    var indices := saved.value;
    var k := 0;
    while k < |indices|
      invariant 0 <= k <= |indices|
      invariant DecodesTo(indices[..k], grid)
    {
      var idx := indices[k];
      assert indices[..k + 1] == indices[..k] + [idx];
      if 0 <= idx < |grid| {
        grid := grid[idx := true];
      } else if idx >= |grid| {
        grid := grid + seq(idx - |grid|, _ => false) + [true];
      }
      k := k + 1;
    }
    assert indices[..k] == indices;
  }

  /** A list of indices decodes to one grid only. */
  lemma DecodeUnique(indices: seq<int>, g1: seq<bool>, g2: seq<bool>)
    requires DecodesTo(indices, g1) && DecodesTo(indices, g2)
    ensures g1 == g2
  {
    assert |g2| > GridSize ==> |g2| - 1 in indices;
    assert |g1| > GridSize ==> |g1| - 1 in indices;
  }

  /** `toggleSeat(index)` flips cell `index` and leaves the length and every other cell as they were. */
  predicate FlippedAt(before: seq<bool>, after: seq<bool>, index: int)
  {
    && 0 <= index < |before|
    && |after| == |before|
    && after[index] == !before[index]
    && forall j :: 0 <= j < |before| && j != index ==> after[j] == before[j]
  }

  /** `toggleSeat`: copy the cells into a new array, then negate one of them. The buttons pass their own index. */
  method ToggleCell(layout: seq<bool>, index: int) returns (toggled: seq<bool>)
    requires 0 <= index < |layout|
    ensures FlippedAt(layout, toggled, index)
  {
    var newLayout := new bool[|layout|](i requires 0 <= i < |layout| => layout[i]);
    newLayout[index] := !newLayout[index];
    toggled := newLayout[..];
  }

  /** Toggling the same cell twice gives back the grid. */
  lemma FlipTwice(g0: seq<bool>, g1: seq<bool>, g2: seq<bool>, index: int)
    requires FlippedAt(g0, g1, index) && FlippedAt(g1, g2, index)
    ensures g2 == g0
  {
  }

  /**
   * The encoding in `handleSubmit`: the indices of the active cells, in order
   * (`map((active, idx) => active ? idx : null).filter(idx => idx !== null)`).
   */
  function ActiveIndices(grid: seq<bool>): (r: seq<int>)
    ensures forall x :: x in r <==> 0 <= x < |grid| && grid[x]
    ensures StrictlyIncreasing(r)
    decreases |grid|
  {
    if grid == [] then []
    else
      var n := |grid| - 1;
      var front := ActiveIndices(grid[..n]);
      forall i | 0 <= i < |front| ensures front[i] < n {
        assert front[i] in front;
      }
      front + (if grid[n] then [n] else [])
  }

  /** `seatLayout.filter(s => s).length`: the number of active cells. */
  function ActiveCount(grid: seq<bool>): nat
    decreases |grid|
  {
    if grid == [] then 0 else ActiveCount(grid[..|grid| - 1]) + (if grid[|grid| - 1] then 1 else 0)
  }

  /** The encoded layout has as many entries as there are active cells. */
  lemma {:induction false} EncodedLength(grid: seq<bool>)
    ensures |ActiveIndices(grid)| == ActiveCount(grid)
    decreases |grid|
  {
    if grid != [] {
      EncodedLength(grid[..|grid| - 1]);
    }
  }

  /** No active cell means a count of zero, and a count of zero means no active cell. */
  lemma {:induction false} CountZero(grid: seq<bool>)
    ensures ActiveCount(grid) == 0 <==> forall i :: 0 <= i < |grid| ==> !grid[i]
    decreases |grid|
  {
    if grid != [] {
      var n := |grid| - 1;
      CountZero(grid[..n]);
      assert forall i :: 0 <= i < n ==> grid[..n][i] == grid[i];
    }
  }

  /** Toggling a cell changes the count by one: down when it was active, up otherwise. */
  lemma {:induction false} FlipCount(before: seq<bool>, after: seq<bool>, index: int)
    requires FlippedAt(before, after, index)
    ensures ActiveCount(after) == if before[index] then ActiveCount(before) - 1 else ActiveCount(before) + 1
    decreases |before|
  {
    var n := |before| - 1;
    if index == n {
      assert after[..n] == before[..n];
    } else {
      FlipCount(before[..n], after[..n], index);
    }
  }

  /** The bus data `handleSubmit` sends for the layout. */
  datatype LayoutPayload = LayoutPayload(totalSeats: nat, seatLayout: seq<int>)

  function Submit(grid: seq<bool>): LayoutPayload
  {
    var active := ActiveIndices(grid);
    LayoutPayload(|active|, active)
  }

  /** `disabled={seatLayout.filter(s => s).length === 0}`. */
  predicate SubmitDisabled(grid: seq<bool>)
  {
    ActiveCount(grid) == 0
  }

  /**
   * `total_seats` is the length of the saved layout and the count shown on the
   * page; submitting is disabled exactly when no cell is active, that is when
   * the layout would be empty.
   */
  lemma SubmitAgreesWithCount(grid: seq<bool>)
    ensures Submit(grid).totalSeats == |Submit(grid).seatLayout| == ActiveCount(grid)
    ensures SubmitDisabled(grid) <==> (forall i :: 0 <= i < |grid| ==> !grid[i])
    ensures SubmitDisabled(grid) <==> Submit(grid).seatLayout == []
  {
    EncodedLength(grid);
    CountZero(grid);
  }

  /** Decoding the encoding of a 70-cell grid gives the grid back. */
  lemma DecodeEncode(grid: seq<bool>, decoded: seq<bool>)
    requires |grid| == GridSize
    requires DecodesTo(ActiveIndices(grid), decoded)
    ensures decoded == grid
  {
    assert |decoded| > GridSize ==> |decoded| - 1 in ActiveIndices(grid);
  }

  /**
   * Encoding a decoded list gives its nonnegative indices in ascending order,
   * each once.
   */
  lemma EncodeDecode(indices: seq<int>, decoded: seq<bool>)
    requires DecodesTo(indices, decoded)
    ensures StrictlyIncreasing(ActiveIndices(decoded))
    ensures forall x :: x in ActiveIndices(decoded) <==> x in indices && x >= 0
  {
  }

  /** Two ascending lists with the same members are the same list. */
  lemma {:induction false} AscendingUnique(a: seq<int>, b: seq<int>)
    requires StrictlyIncreasing(a) && StrictlyIncreasing(b)
    requires forall x :: x in a <==> x in b
    ensures a == b
    decreases |a|
  {
    if a == [] || b == [] {
      FirstIsMember(a);
      FirstIsMember(b);
    } else {
      HeadIsLeast(a, b[0]);
      HeadIsLeast(b, a[0]);
      Tail(a);
      Tail(b);
      AscendingUnique(a[1..], b[1..]);
      assert a == [a[0]] + a[1..] && b == [b[0]] + b[1..];
    }
  }

  /** The head of an ascending list is at most each of its members. */
  lemma HeadIsLeast(s: seq<int>, x: int)
    requires StrictlyIncreasing(s) && x in s
    ensures s[0] <= x
  {
    var k :| 0 <= k < |s| && s[k] == x;
  }

  /** The tail of an ascending list is ascending and holds exactly its members above the head. */
  lemma Tail(s: seq<int>)
    requires StrictlyIncreasing(s) && s != []
    ensures StrictlyIncreasing(s[1..])
    ensures forall x :: x in s[1..] <==> (x in s && x > s[0])
  {
    forall x | x in s && x > s[0] ensures x in s[1..] {
      var k :| 0 <= k < |s| && s[k] == x;
      assert s[1..][k - 1] == x;
    }
  }

  lemma FirstIsMember(s: seq<int>)
    ensures s == [] || s[0] in s
  {
  }

  /**
   * For a saved list of indices in [0, 70), encoding the decoded grid gives
   * exactly the sorted list without repeats: any ascending list with the same
   * members as the saved one.
   */
  lemma EncodeDecodeInRange(indices: seq<int>, decoded: seq<bool>, sorted: seq<int>)
    requires forall x :: x in indices ==> 0 <= x < GridSize
    requires DecodesTo(indices, decoded)
    requires StrictlyIncreasing(sorted) && forall x :: x in sorted <==> x in indices
    ensures |decoded| == GridSize
    ensures ActiveIndices(decoded) == sorted
  {
    assert |decoded| > GridSize ==> |decoded| - 1 in indices;
    AscendingUnique(ActiveIndices(decoded), sorted);
  }
}
