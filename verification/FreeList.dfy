/** The server's free lists: request and response headers linked through their own next field. */
module FreeList {

  class Cell<T> {
    var data: T
    var next: Cell?<T>

    constructor (data: T)
      ensures this.data == data && next == null
    {
      this.data := data;
      next := null;
    }
  }

  /** The cells reached from head are exactly the cells of the sequence, which ends in null. */
  ghost predicate Linked<T>(head: Cell?<T>, cells: seq<Cell<T>>)
    reads cells`next
    decreases |cells|
  {
    if cells == [] then head == null else head == cells[0] && Linked(cells[0].next, cells[1..])
  }

  ghost function Elements<T>(cells: seq<Cell<T>>): set<Cell<T>> {
    set c | c in cells
  }

  /** A cell whose next is itself starts no finite list. */
  lemma {:induction false} SelfLoopIsNoList<T>(c: Cell<T>, cells: seq<Cell<T>>)
    requires c.next == c
    ensures !Linked(c, cells)
    decreases |cells|
  {
    if cells != [] && cells[0] == c {
      SelfLoopIsNoList(c, cells[1..]);
    }
  }

  /** A list meets no cell twice. */
  lemma {:induction false} LinkedIsAcyclic<T>(head: Cell?<T>, cells: seq<Cell<T>>)
    requires Linked(head, cells)
    ensures forall i, j :: 0 <= i < j < |cells| ==> cells[i] != cells[j]
    decreases |cells|
  {
    if cells != [] {
      LinkedIsAcyclic(cells[0].next, cells[1..]);
      forall j | 1 <= j < |cells| ensures cells[0] != cells[j] {
        if cells[0] == cells[j] {
          LinkedFrom(head, cells, j);
          LinkedUnique(cells[0], cells, cells[j..]);
        }
      }
      forall i, j | 0 <= i < j < |cells| ensures cells[i] != cells[j] {
        if i > 0 { assert cells[1..][i - 1] == cells[i] && cells[1..][j - 1] == cells[j]; }
      }
    }
  }

  lemma {:induction false} LinkedFrom<T>(head: Cell?<T>, cells: seq<Cell<T>>, j: nat)
    requires Linked(head, cells) && j < |cells|
    ensures Linked(cells[j], cells[j..])
    decreases |cells|
  {
    if j > 0 {
      LinkedFrom(cells[0].next, cells[1..], j - 1);
      assert cells[1..][j - 1] == cells[j] && cells[1..][j - 1..] == cells[j..];
    }
  }

  lemma {:induction false} LinkedUnique<T>(head: Cell?<T>, xs: seq<Cell<T>>, ys: seq<Cell<T>>)
    requires Linked(head, xs) && Linked(head, ys)
    ensures |xs| == |ys|
    decreases |xs|
  {
    if xs != [] {
      LinkedUnique(xs[0].next, xs[1..], ys[1..]);
    }
  }

  lemma {:induction false} DistinctCount<T>(cells: seq<Cell<T>>)
    requires forall i, j :: 0 <= i < j < |cells| ==> cells[i] != cells[j]
    ensures |Elements(cells)| == |cells|
    decreases |cells|
  {
    if cells != [] {
      var rest := cells[1..];
      DistinctCount(rest);
      assert Elements(cells) == {cells[0]} + Elements(rest);
    }
  }

  class FreeList<T> {
    var head: Cell?<T>
    const zero: T
    ghost var free: seq<Cell<T>>
    ghost var inUse: set<Cell<T>>
    ghost var dropped: set<Cell<T>>
    ghost var made: set<Cell<T>>

    /** Every cell ever made is free, in use or dropped, and only one of these. */
    ghost predicate Valid()
      reads this, free`next
    {
      && Linked(head, free)
      && made == Elements(free) + inUse + dropped
      && Elements(free) !! inUse && Elements(free) !! dropped && inUse !! dropped
    }

    constructor (zero: T)
      ensures Valid() && this.zero == zero && free == [] && inUse == {} && dropped == {} && made == {}
    {
      this.zero := zero;
      head := null;
      free, inUse, dropped, made := [], {}, {}, {};
    }

    lemma {:induction false} Apart()
      requires Valid()
      ensures forall c :: c in inUse ==> c !in free && c in made
      ensures forall c :: c in free ==> c in made
    {
    }

    /** Every cell made is accounted for, and the list has no cell twice. */
    lemma {:induction false} Count()
      requires Valid()
      ensures |made| == |free| + |inUse| + |dropped|
      ensures forall i, j :: 0 <= i < j < |free| ==> free[i] != free[j]
    {
      LinkedIsAcyclic(head, free);
      DistinctCount(free);
    }

    /** getRequest, getResponse: a zeroed cell that nobody else has. */
    method Get() returns (c: Cell<T>)
      requires Valid()
      modifies this, free
      ensures Valid() && c in inUse && c.data == zero && c.next == null
      ensures inUse == old(inUse) + {c} && c !in old(inUse) && dropped == old(dropped)
      ensures if old(free) == [] then fresh(c) && free == [] && made == old(made) + {c}
              else c == old(free)[0] && free == old(free)[1..] && made == old(made)
    {
      if head == null {
        assert free == [];
        c := new Cell(zero);
        made := made + {c};
      } else {
        c := head;
        LinkedIsAcyclic(head, free);
        head := c.next;
        free := free[1..];
        assert Linked(head, free);
        c.data, c.next := zero, null;
      }
      inUse := inUse + {c};
    }

    /** freeRequest, freeResponse: the two assignments, whatever the cell was doing. */
    method Push(c: Cell<T>)
      modifies this`head, c`next
      ensures head == c && c.next == old(head)
    {
      c.next := head;
      head := c;
    }

    method Free(c: Cell<T>)
      requires Valid() && c in inUse
      modifies this, c`next
      ensures Valid() && free == [c] + old(free) && inUse == old(inUse) - {c} && dropped == old(dropped) && made == old(made)
    {
      Push(c);
      free := [c] + free;
      inUse := inUse - {c};
    }

    /** A cell that is never given back: its request could not be read. */
    ghost method Drop(c: Cell<T>)
      requires Valid() && c in inUse
      modifies this
      ensures Valid() && head == old(head) && free == old(free) && inUse == old(inUse) - {c} && dropped == old(dropped) + {c} && made == old(made)
    {
      inUse, dropped := inUse - {c}, dropped + {c};
    }

    /** Giving the same cell back twice makes it its own successor: the free list has no end any more. */
    method FreeTwice(c: Cell<T>)
      requires Valid() && c in inUse
      modifies this, c
      ensures head == c && c.next == c && forall cells: seq<Cell<T>> :: !Linked(head, cells)
    {
      Push(c);
      Push(c);
      forall cells: seq<Cell<T>> ensures !Linked(head, cells) {
        SelfLoopIsNoList(c, cells);
      }
    }
  }
}
