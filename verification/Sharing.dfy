/** Rows that framebuffers share: a row is copied before it is written if anyone else holds it. */
module SharedRows {
  import opened Terminal
  import Consoles

  type Row = seq<Cell>

  /** How often `id` occurs. */
  function CountIn(ids: seq<nat>, id: nat): nat {
    if ids == [] then 0 else (if ids[0] == id then 1 else 0) + CountIn(ids[1..], id)
  }

  function Count(frames: seq<seq<nat>>, id: nat): nat {
    if frames == [] then 0 else CountIn(frames[0], id) + Count(frames[1..], id)
  }

  ghost predicate Known(heap: map<nat, Row>, ids: seq<nat>) {
    forall y | 0 <= y < |ids| :: ids[y] in heap
  }

  ghost function RowsOf(heap: map<nat, Row>, ids: seq<nat>): (rows: seq<Row>)
    requires Known(heap, ids)
    ensures |rows| == |ids|
  {
    seq(|ids|, y requires 0 <= y < |ids| => heap[ids[y]])
  }

  lemma {:induction false} CountedIn(ids: seq<nat>, id: nat, y: nat)
    requires y < |ids| && ids[y] == id
    ensures 1 <= CountIn(ids, id)
    ensures CountIn(ids, id) == 1 ==> forall z | 0 <= z < |ids| && z != y :: ids[z] != id
  {
    if y == 0 {
      if CountIn(ids, id) == 1 { AbsentIn(ids[1..], id); }
      assert forall z | 0 < z < |ids| :: ids[z] == ids[1..][z - 1];
    } else {
      CountedIn(ids[1..], id, y - 1);
      assert forall z | 0 < z < |ids| :: ids[z] == ids[1..][z - 1];
    }
  }

  lemma {:induction false} AbsentIn(ids: seq<nat>, id: nat)
    requires CountIn(ids, id) == 0
    ensures id !in ids
  {
    if ids != [] { AbsentIn(ids[1..], id); }
  }

  lemma {:induction false} Absent(frames: seq<seq<nat>>, id: nat)
    requires Count(frames, id) == 0
    ensures forall g | 0 <= g < |frames| :: id !in frames[g]
  {
    if frames != [] {
      AbsentIn(frames[0], id);
      Absent(frames[1..], id);
      assert forall g | 0 < g < |frames| :: frames[g] == frames[1..][g - 1];
    }
  }

  /** A row with a single owner is held nowhere else. */
  lemma {:induction false} SingleOwner(frames: seq<seq<nat>>, id: nat, f: nat, y: nat)
    requires f < |frames| && y < |frames[f]| && frames[f][y] == id
    ensures 1 <= Count(frames, id)
    ensures Count(frames, id) == 1 ==>
              && (forall g | 0 <= g < |frames| && g != f :: id !in frames[g])
              && (forall z | 0 <= z < |frames[f]| && z != y :: frames[f][z] != id)
  {
    hide CountIn;
    assert forall g | 0 < g < |frames| :: frames[g] == frames[1..][g - 1];
    if f == 0 {
      CountedIn(frames[0], id, y);
      if Count(frames, id) == 1 { Absent(frames[1..], id); }
    } else {
      SingleOwner(frames[1..], id, f - 1, y);
      if Count(frames, id) == 1 { AbsentIn(frames[0], id); }
    }
  }

  class Pool {
    var heap: map<nat, Row>
    var next: nat
    var frames: seq<seq<nat>>

    ghost predicate Valid()
      reads this
    {
      && (forall g | 0 <= g < |frames| :: Known(heap, frames[g]))
      && (forall id | id in heap :: id < next)
    }

    /** A framebuffer's rows as values. */
    ghost function Rows(g: nat): seq<Row>
      requires Valid() && g < |frames|
      reads this
    {
      RowsOf(heap, frames[g])
    }

    constructor ()
      ensures Valid() && frames == []
    {
      heap, next, frames := map[], 0, [];
    }

    method MakeShared(row: Row) returns (id: nat)
      requires Valid()
      modifies this`heap, this`next
      ensures Valid() && id in heap && heap[id] == row
      ensures forall g | 0 <= g < |frames| :: Rows(g) == old(Rows(g)) && id !in frames[g]
    {
      id := next;
      heap := heap[id := row];
      next := next + 1;
    }

    /** The row at `y`, now held by nobody else; no framebuffer looks different. */
    method GetMutableRow(f: nat, y: nat) returns (id: nat)
      requires Valid() && f < |frames| && y < |frames[f]|
      modifies this
      ensures Valid() && |frames| == old(|frames|)
      ensures y < |frames[f]| && frames[f][y] == id
      ensures forall g | 0 <= g < |frames| :: Rows(g) == old(Rows(g))
      ensures forall g | 0 <= g < |frames| && g != f :: id !in frames[g]
      ensures forall z | 0 <= z < |frames[f]| && z != y :: frames[f][z] != id
    {
      id := frames[f][y];
      SingleOwner(frames, id, f, y);
      if Count(frames, id) > 1 {
        id := MakeShared(heap[id]);
        var ids: seq<nat> := frames[f][y := id];
        frames := frames[f := ids];
      }
    }

    /** Writes a whole row of one framebuffer, as resetting it or inserting cells into it does. */
    method SetRow(f: nat, y: nat, row: Row)
      requires Valid() && f < |frames| && y < |frames[f]|
      modifies this
      ensures Valid() && |frames| == old(|frames|)
      ensures Rows(f) == old(Rows(f))[y := row]
      ensures forall g | 0 <= g < |frames| && g != f :: Rows(g) == old(Rows(g))
    {
      hide Count;
      var id := GetMutableRow(f, y);
      heap := heap[id := row];
    }

    /** Writes one cell of one framebuffer. */
    method SetCell(f: nat, y: nat, x: nat, cell: Cell)
      requires Valid() && f < |frames| && y < |frames[f]| && x < |Rows(f)[y]|
      modifies this
      ensures Valid() && |frames| == old(|frames|)
      ensures Rows(f) == old(Rows(f)[y := Rows(f)[y][x := cell]])
      ensures forall g | 0 <= g < |frames| && g != f :: Rows(g) == old(Rows(g))
    {
      hide Count;
      var id := GetMutableRow(f, y);
      assert heap[id] == Rows(f)[y];
      heap := heap[id := heap[id][x := cell]];
    }

    /** Deletes rows; the blank rows that come in are one row, held several times. */
    method DeleteLines(f: nat, first: nat, last: int, n: nat, blank: Row)
      requires Valid() && f < |frames| && first + n <= last + 1 <= |frames[f]|
      modifies this
      ensures Valid() && |frames| == old(|frames|)
      ensures Rows(f) == ScrollUp(old(Rows(f)), first, last, n, blank)
      ensures forall g | 0 <= g < |frames| && g != f :: Rows(g) == old(Rows(g))
    {
      var id := MakeShared(blank);
      var ids := frames[f];
      ids := ids[..first] + ids[first + n..];
      var start := last + 1 - n;
      ids := ids[..start] + seq(n, _ => id) + ids[start..];
      frames := frames[f := ids];
    }

    /** Inserts blank rows, which are again one row, and drops as many below. */
    method InsertLines(f: nat, first: nat, last: int, n: nat, blank: Row)
      requires Valid() && f < |frames| && first + n <= last + 1 <= |frames[f]|
      modifies this
      ensures Valid() && |frames| == old(|frames|)
      ensures Rows(f) == Consoles.ScrollDown(old(Rows(f)), first, last, n, blank)
      ensures forall g | 0 <= g < |frames| && g != f :: Rows(g) == old(Rows(g))
    {
      var id := MakeShared(blank);
      var ids := frames[f];
      var start := last + 1 - n;
      ids := ids[..start] + ids[start + n..];
      ids := ids[..first] + seq(n, _ => id) + ids[first..];
      frames := frames[f := ids];
    }

    /** A new size. Rows that stay are copied if the width changes; the rows that come in are one row. */
    method Resize(f: nat, oldWidth: nat, width: nat, height: nat, background: nat)
      requires Valid() && f < |frames| && forall y | 0 <= y < |Rows(f)| :: |Rows(f)[y]| == oldWidth > 0
      modifies this
      ensures Valid() && |frames| == old(|frames|)
      ensures var stay := if height < old(|frames[f]|) then height else old(|frames[f]|);
              Rows(f) == (if width == oldWidth then old(Rows(f))[..stay] else ResizeRows(old(Rows(f)), stay, width, background))
                         + BlankRows(height - stay, width, background)
      ensures forall g | 0 <= g < |frames| && g != f :: Rows(g) == old(Rows(g))
    {
      hide ResizeRow, BlankRow, Count;
      var stay := if height < |frames[f]| then height else |frames[f]|;
      var blank := MakeShared(BlankRow(width, background));
      var ids := frames[f][..stay] + seq(height - stay, _ => blank);
      ghost var before := old(Rows(f));
      if width != oldWidth {
        for i := 0 to stay
          invariant Valid() && frames == old(frames) && |ids| == height && Known(heap, ids)
          invariant forall g | 0 <= g < |frames| :: Rows(g) == old(Rows(g))
          invariant forall k | 0 <= k < i :: heap[ids[k]] == ResizeRow(before[k], width, background)
          invariant forall k | i <= k < stay :: heap[ids[k]] == before[k]
          invariant forall k | stay <= k < height :: heap[ids[k]] == BlankRow(width, background)
        {
          var id := MakeFresh(ResizeRow(heap[ids[i]], width, background), ids);
          ids := ids[i := id];
        }
      }
      frames := frames[f := ids];
    }

    /** A row that is new to every framebuffer and to `ids`. */
    method MakeFresh(row: Row, ghost ids: seq<nat>) returns (id: nat)
      requires Valid() && Known(heap, ids)
      modifies this`heap, this`next
      ensures Valid() && id in heap && heap[id] == row && id !in ids && Known(heap, ids)
      ensures forall k | 0 <= k < |ids| :: heap[ids[k]] == old(heap)[ids[k]]
      ensures forall g | 0 <= g < |frames| :: Rows(g) == old(Rows(g)) && id !in frames[g]
    {
      id := next;
      heap := heap[id := row];
      next := next + 1;
    }

    /** `Framebuffer::reset` gives the framebuffer one blank row `height` times. */
    method Reset(f: nat, width: nat, height: nat)
      requires Valid() && f < |frames|
      modifies this
      ensures Valid() && |frames| == old(|frames|)
      ensures Rows(f) == BlankRows(height, width, 0)
      ensures forall g | 0 <= g < |frames| && g != f :: Rows(g) == old(Rows(g))
    {
      var id := MakeShared(BlankRow(width, 0));
      frames := frames[f := seq(height, _ => id)];
    }

    /** A copy of a framebuffer shares all its rows. */
    method CopyFrame(f: nat)
      requires Valid() && f < |frames|
      modifies this`frames
      ensures Valid() && |frames| == old(|frames|) + 1
      ensures Rows(old(|frames|)) == old(Rows(f))
      ensures forall g | 0 <= g < old(|frames|) :: Rows(g) == old(Rows(g))
    {
      frames := frames + [frames[f]];
    }

    /** A new framebuffer holds one blank row `height` times. */
    method NewFrame(width: nat, height: nat)
      requires Valid()
      modifies this
      ensures Valid() && |frames| == old(|frames|) + 1
      ensures Rows(old(|frames|)) == seq(height, _ => BlankRow(width, 0))
      ensures forall g | 0 <= g < old(|frames|) :: Rows(g) == old(Rows(g))
    {
      var id := MakeShared(BlankRow(width, 0));
      frames := frames + [seq(height, _ => id)];
    }
  }
}
