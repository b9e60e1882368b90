/** utils/CyclicBuffer.java: a fixed-capacity ring buffer that overwrites its oldest item. */
module CyclicBuffers {
  import opened Wrappers

  /** The items a buffer of capacity `cap` keeps of the items `added` since construction or
      the last reset: the last min(|added|, cap) of them, oldest first. */
  function Window<E>(added: seq<E>, cap: nat): (w: seq<E>)
    ensures |w| == if |added| < cap then |added| else cap
  {
    if |added| <= cap then added else added[|added| - cap..]
  }

  /** A sequence listed newest (last) element first. */
  function NewestFirst<E>(s: seq<E>): (r: seq<E>)
    ensures |r| == |s|
  {
    if s == [] then [] else [s[|s| - 1]] + NewestFirst(s[..|s| - 1])
  }

  lemma {:induction false} NewestFirstAt<E>(s: seq<E>, k: nat)
    requires k < |s|
    ensures NewestFirst(s)[k] == s[|s| - 1 - k]
  {
    if k > 0 {
      NewestFirstAt(s[..|s| - 1], k - 1);
    }
  }

  /** Adding to a buffer that is not yet full only appends. */
  lemma WindowGrows<E>(added: seq<E>, cap: nat, x: E)
    requires |added| < cap
    ensures Window(added + [x], cap) == Window(added, cap) + [x]
  {
  }

  /** Adding to a full buffer evicts exactly the oldest item and keeps the rest in order. */
  lemma {:induction false} WindowEvictsOldest<E>(added: seq<E>, cap: nat, x: E)
    requires cap > 0 && |added| >= cap
    ensures Window(added + [x], cap) == Window(added, cap)[1..] + [x]
  {
    var s := added + [x];
    assert s[|s| - cap..] == added[|added| - cap + 1..] + [x];
  }

  /** What the buffer lists after an add: the new item first, then the previous listing,
      truncated to the capacity. */
  lemma {:induction false} ListingAfterAdd<E>(added: seq<E>, cap: nat, x: E)
    requires cap > 0
    ensures var before := NewestFirst(Window(added, cap));
            NewestFirst(Window(added + [x], cap)) ==
              [x] + (if |before| < cap then before else before[..cap - 1])
  {
    var w := Window(added, cap);
    if |added| < cap {
      WindowGrows(added, cap, x);
      assert (w + [x])[..|w|] == w;
    } else {
      WindowEvictsOldest(added, cap, x);
      ListingDropsOldest(w, x);
    }
  }

  /** Listing the window without its oldest item and with a new one. */
  lemma {:induction false} ListingDropsOldest<E>(w: seq<E>, x: E)
    requires |w| > 0
    ensures NewestFirst(w[1..] + [x]) == [x] + NewestFirst(w)[..|w| - 1]
  {
    assert (w[1..] + [x])[..|w| - 1] == w[1..];
    assert NewestFirst(w[1..] + [x]) == [x] + NewestFirst(w[1..]);
    forall k | 0 <= k < |w| - 1
      ensures NewestFirst(w[1..])[k] == NewestFirst(w)[k]
    {
      NewestFirstAt(w[1..], k);
      NewestFirstAt(w, k);
    }
  }

  /** The array slot holding the k-th oldest of `size` items in an array of length n: the
      oldest item sits at index 0 until the buffer first fills, and at `last` (the slot
      written next) from then on. */
  function SlotOf(k: nat, size: nat, last: nat, n: nat): nat
  {
    if size < n then k
    else if last + k < n then last + k
    else last + k - n
  }

  /** The array contents `d` hold `items`, oldest first, in the slots SlotOf names. */
  ghost predicate Stored<E>(items: seq<E>, d: seq<E>, last: nat)
  {
    |items| <= |d| &&
    forall k {:trigger items[k]} :: 0 <= k < |items| ==> SlotOf(k, |items|, last, |d|) < |d| && items[k] == d[SlotOf(k, |items|, last, |d|)]
  }

  /** Writing a new item behind the stored ones of a buffer that has room keeps them stored. */
  lemma StoredAfterGrow<E>(items: seq<E>, d: seq<E>, x: E)
    requires Stored(items, d, |items|) && |items| < |d|
    ensures Stored(items + [x], d[|items| := x], (|items| + 1) % |d|)
  {
    var s, n := items + [x], |d|;
    var next := (|items| + 1) % n;
    assert |s| == n ==> next == 0;
    forall k | 0 <= k < |s|
      ensures SlotOf(k, |s|, next, n) < n && s[k] == d[|items| := x][SlotOf(k, |s|, next, n)]
    {
      assert SlotOf(k, |s|, next, n) == k;
      if k < |items| {
        assert SlotOf(k, |items|, |items|, n) == k;
      }
    }
  }

  /** Overwriting the oldest item (at `last`) of a full buffer stores the rest and the new item. */
  lemma StoredAfterEvict<E>(items: seq<E>, d: seq<E>, last: nat, x: E)
    requires Stored(items, d, last) && |items| == |d| && last < |d|
    ensures Stored(items[1..] + [x], d[last := x], (last + 1) % |d|)
  {
    var s, n := items[1..] + [x], |d|;
    var next := (last + 1) % n;
    assert next == if last + 1 == n then 0 else last + 1;
    forall k | 0 <= k < |s|
      ensures SlotOf(k, |s|, next, n) < n && s[k] == d[last := x][SlotOf(k, |s|, next, n)]
    {
      if k < n - 1 {
        assert s[k] == items[k + 1];
        assert SlotOf(k + 1, |items|, last, n) == SlotOf(k, |s|, next, n);
      } else {
        assert SlotOf(k, |s|, next, n) == last;
      }
    }
  }

  /** The buffer state (array contents d, size, last) after the items `added`. */
  ghost predicate Keeps<E>(added: seq<E>, d: seq<E>, size: nat, last: nat)
  {
    size <= |d| && last <= |d| && (|d| > 0 ==> last < |d|) &&
    size == |Window(added, |d|)| && (size < |d| ==> last == size) &&
    Stored(Window(added, |d|), d, last)
  }

  /** One add keeps the buffer state in step with the items added, and a full buffer gives
      back its oldest item. */
  lemma KeepsAfterAdd<E>(added: seq<E>, d: seq<E>, size: nat, last: nat, x: E)
    requires Keeps(added, d, size, last) && |d| > 0
    ensures Keeps(added + [x], d[last := x], if size < |d| then size + 1 else size, (last + 1) % |d|)
    ensures size == |d| ==> d[last] == Window(added, |d|)[0]
  {
    if size < |d| {
      KeepsAfterGrow(added, d, size, x);
    } else {
      KeepsAfterEvict(added, d, last, x);
    }
  }

  lemma KeepsAfterGrow<E>(added: seq<E>, d: seq<E>, size: nat, x: E)
    requires Keeps(added, d, size, size) && size < |d|
    ensures Keeps(added + [x], d[size := x], size + 1, (size + 1) % |d|)
  {
    StoredAfterGrow(Window(added, |d|), d, x);
    WindowGrows(added, |d|, x);
  }

  lemma KeepsAfterEvict<E>(added: seq<E>, d: seq<E>, last: nat, x: E)
    requires Keeps(added, d, |d|, last) && |d| > 0
    ensures Keeps(added + [x], d[last := x], |d|, (last + 1) % |d|)
    ensures d[last] == Window(added, |d|)[0]
  {
    StoredAfterEvict(Window(added, |d|), d, last, x);
    WindowEvictsOldest(added, |d|, x);
    assert SlotOf(0, |d|, last, |d|) == last;
  }

  /** The buffer of Java references: an item is an `Option<E>`, `None` standing for null, as
      Java's `add` accepts null and a slot never written still holds the null `new Object[size]`
      puts there. */
  /** Only the first `filled` slots of `d` have been written: the others still hold null. */
  ghost predicate Unwritten<E>(d: seq<Option<E>>, filled: nat)
  {
    filled <= |d| && forall i :: filled <= i < |d| ==> d[i] == None
  }

  /** Writing slot `last`, at most one past the written ones, extends the written prefix to
      cover it; a slot just past the prefix held null. */
  lemma UnwrittenAfterWrite<E>(d: seq<Option<E>>, filled: nat, last: nat, x: Option<E>)
    requires Unwritten(d, filled) && last <= filled && last < |d|
    ensures Unwritten(d[last := x], if last < filled then filled else filled + 1)
    ensures last == filled ==> d[last] == None
  {
  }

  /** One add keeps the whole buffer state consistent: the items, and the written prefix. */
  lemma StateAfterAdd<E>(added: seq<Option<E>>, d: seq<Option<E>>, size: nat, last: nat, filled: nat, x: Option<E>)
    requires Keeps(added, d, size, last) && last <= filled && Unwritten(d, filled) && |d| > 0
    ensures var filled' := if last < filled then filled else filled + 1;
            Keeps(added + [x], d[last := x], if size < |d| then size + 1 else size, (last + 1) % |d|) &&
            (last + 1) % |d| <= filled' && Unwritten(d[last := x], filled')
    ensures size == |d| ==> d[last] == Window(added, |d|)[0]
    ensures last == filled ==> d[last] == None
  {
    KeepsAfterAdd(added, d, size, last, x);
    UnwrittenAfterWrite(d, filled, last, x);
  }

  class CyclicBuffer<E> {
    var data: array<Option<E>>
    var size: nat
    var last: nat
    /** Every item added since construction or the last reset, oldest first. */
    ghost var added: seq<Option<E>>
    /** Slots 0 to filled - 1 have been written since construction; the others still hold null. */
    ghost var filled: nat

    ghost predicate Valid()
      reads this, data
    {
      Keeps(added, data[..], size, last) && last <= filled && Unwritten(data[..], filled)
    }

    ghost function Capacity(): nat
      reads this
    {
      data.Length
    }

    /** The items the buffer holds, oldest first. */
    ghost function Items(): seq<Option<E>>
      reads this
    {
      Window(added, data.Length)
    }

    constructor (capacity: nat)
      ensures Valid() && fresh(data)
      ensures Capacity() == capacity && added == [] && size == 0 && last == 0
      ensures filled == 0 && forall i :: 0 <= i < capacity ==> data[i] == None
    {
      data := new Option<E>[capacity](_ => None);
      size, last := 0, 0;
      added := [];
      filled := 0;
    }

    /** Stores `item` in slot `last` and returns what that slot held before. */
    method Add(item: Option<E>) returns (previous: Option<E>)
      requires Valid() && Capacity() > 0
      modifies this, data
      ensures Valid() && data == old(data)
      ensures added == old(added) + [item]
      ensures data[..] == old(data[..])[old(last) := item]
      ensures previous == old(data[last])
      ensures size == if old(size) < Capacity() then old(size) + 1 else Capacity()
      ensures last == (old(last) + 1) % Capacity()
      ensures old(size) == Capacity() ==> previous == old(Items())[0]
      ensures filled == if old(last) < old(filled) then old(filled) else old(filled) + 1
      ensures old(last) == old(filled) ==> previous == None
    {
      ghost var d, a0, s0, l0, f0 := data[..], added, size, last, filled;
      previous := data[last];
      data[last] := item;
      filled := if last < filled then filled else filled + 1;
      last := (last + 1) % data.Length;
      if size < data.Length {
        size := size + 1;
      }
      added := added + [item];
      assert data[..] == d[l0 := item];
      StateAfterAdd(a0, d, s0, l0, f0, item);
      assert Keeps(added, data[..], size, last) && Unwritten(data[..], filled);
    }

    /** The buffered items, newest first. */
    method AsList() returns (r: seq<Option<E>>)
      requires Valid()
      ensures r == NewestFirst(Items())
    {
      r := ListSlots(data, size, last, Items());
    }

    /** Empties the buffer logically; the array keeps its old contents. */
    method Reset()
      requires Valid()
      modifies this
      ensures Valid() && data == old(data) && data[..] == old(data[..])
      ensures added == [] && size == 0 && last == 0 && filled == old(filled)
    {
      size := 0;
      last := 0;
      added := [];
    }
  }

  /** The loop of asList: walks the slots backwards from the one before `last`, wrapping
      around to `size - 1`, and collects the `size` stored items newest first. */
  method ListSlots<E>(data: array<E>, size: nat, last: nat, ghost items: seq<E>) returns (r: seq<E>)
    requires Stored(items, data[..], last) && size == |items| && last <= data.Length
    requires size < data.Length ==> last == size
    ensures r == NewestFirst(items)
  {
    if size == 0 {
      return [];
    }
    r := [];
    var i: int, j := last - 1, 0;
    while j < size
      invariant 0 <= j <= size
      invariant i == last - 1 - j || i == last - 1 - j + size
      invariant i >= -1 && (i == last - 1 - j + size ==> last - 1 - j < 0)
      invariant |r| == j
      invariant forall k :: 0 <= k < j ==> r[k] == items[size - 1 - k]
    {
      if i == -1 {
        i := size - 1;
      }
      assert i == SlotOf(size - 1 - j, size, last, data.Length);
      assert items[size - 1 - j] == data[..][i];
      r := r + [data[i]];
      i, j := i - 1, j + 1;
    }
    forall k | 0 <= k < size
      ensures r[k] == NewestFirst(items)[k]
    {
      NewestFirstAt(items, k);
    }
  }

  /** The listing of a buffer of capacity 3 after each add, as a pure calculation. */
  lemma ThreeSlotListings()
    ensures NewestFirst(Window([Some("a")], 3)) == [Some("a")]
    ensures NewestFirst(Window([Some("a"), Some("b")], 3)) == [Some("b"), Some("a")]
    ensures NewestFirst(Window([Some("a"), Some("b"), Some("c")], 3)) == [Some("c"), Some("b"), Some("a")]
    ensures NewestFirst(Window([Some("a"), Some("b"), Some("c"), Some("d")], 3)) == [Some("d"), Some("c"), Some("b")]
    ensures NewestFirst(Window([Some("a"), Some("b"), Some("c"), Some("d"), Some("e")], 3)) == [Some("e"), Some("d"), Some("c")]
  {
    assert Window([Some("a"), Some("b"), Some("c"), Some("d")], 3) == [Some("b"), Some("c"), Some("d")];
    assert Window([Some("a"), Some("b"), Some("c"), Some("d"), Some("e")], 3) == [Some("c"), Some("d"), Some("e")];
    assert [Some("b"), Some("c"), Some("d")][..2] == [Some("b"), Some("c")];
    assert [Some("c"), Some("d"), Some("e")][..2] == [Some("c"), Some("d")];
    assert [Some("a"), Some("b"), Some("c")][..2] == [Some("a"), Some("b")];
  }

  /** The first steps of utils/src/test/.../CyclicBufferTest.java: filling an empty buffer; each
      add returns the null a fresh slot holds. */
  method FillScenario() returns (buffer: CyclicBuffer<string>, returned: seq<Option<string>>)
    ensures buffer.Valid() && fresh(buffer) && fresh(buffer.data)
    ensures buffer.Capacity() == 3 && buffer.added == [Some("a"), Some("b"), Some("c")] && buffer.last == 0
    ensures returned == [None, None, None]
  {
    ThreeSlotListings();
    buffer, returned := PartlyFilledScenario();
    var evicted := buffer.Add(Some("c"));
    returned := returned + [evicted];
    assert buffer.added == [Some("a"), Some("b"), Some("c")];
    var content := buffer.AsList();
    assert content == [Some("c"), Some("b"), Some("a")];
  }

  /** The first steps of the test: an empty listing, then the newest item first. */
  method PartlyFilledScenario() returns (buffer: CyclicBuffer<string>, returned: seq<Option<string>>)
    ensures buffer.Valid() && fresh(buffer) && fresh(buffer.data)
    ensures buffer.Capacity() == 3 && buffer.added == [Some("a"), Some("b")] && buffer.size == 2 && buffer.last == 2
    ensures buffer.filled == 2 && returned == [None, None]
  {
    ThreeSlotListings();
    buffer := new CyclicBuffer<string>(3);
    var content := buffer.AsList();
    assert content == [];
    var evicted := buffer.Add(Some("a"));
    returned := [evicted];
    assert buffer.added == [Some("a")];
    content := buffer.AsList();
    assert content == [Some("a")];
    evicted := buffer.Add(Some("b"));
    returned := returned + [evicted];
    assert buffer.added == [Some("a"), Some("b")];
    content := buffer.AsList();
    assert content == [Some("b"), Some("a")];
  }

  /** The next steps of the test: each add to the full buffer evicts the oldest item. */
  method OverflowScenario() returns (buffer: CyclicBuffer<string>)
    ensures buffer.Valid() && fresh(buffer) && fresh(buffer.data)
    ensures buffer.Capacity() == 3 && buffer.added == [Some("a"), Some("b"), Some("c"), Some("d"), Some("e")] && buffer.data[0] == Some("d")
  {
    ThreeSlotListings();
    var returned;
    buffer, returned := FillScenario();
    var evicted := buffer.Add(Some("d"));
    assert buffer.added == [Some("a"), Some("b"), Some("c"), Some("d")] && buffer.data[0] == Some("d");
    assert evicted == Some("a");
    var content := buffer.AsList();
    assert content == [Some("d"), Some("c"), Some("b")];
    evicted := buffer.Add(Some("e"));
    assert buffer.added == [Some("a"), Some("b"), Some("c"), Some("d"), Some("e")];
    assert evicted == Some("b");
    content := buffer.AsList();
    assert content == [Some("e"), Some("d"), Some("c")];
  }

  /** The second half of the test: after reset the buffer lists nothing and then behaves like a
      fresh one, while the first add gives back the stale item left in slot 0. */
  method CyclicBufferResetScenario() returns (stale: Option<string>, listings: seq<seq<Option<string>>>)
    ensures listings == [[], [Some("a")], [Some("b"), Some("a")]]
    ensures stale == Some("d")
  {
    ThreeSlotListings();
    var buffer := OverflowScenario();
    buffer.Reset();
    var content := buffer.AsList();
    listings := [content];
    stale := buffer.Add(Some("a"));
    content := buffer.AsList();
    listings := listings + [content];
    var evicted := buffer.Add(Some("b"));
    content := buffer.AsList();
    listings := listings + [content];
  }
}
