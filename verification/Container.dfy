/** The segmented byte buffer (base/container/container.go): a slice of slices with an offset. Every
  operation is proved against one flat byte sequence, `View()`. */
module Container {
  import opened Common
  import opened Varint

  // ------------------------------------------------------- flat sequences

  /** The bytes of the slots from `i` on. */
  function Flat(slots: seq<seq<byte>>, i: nat): seq<byte>
    requires i <= |slots|
    decreases |slots| - i
  {
    if i == |slots| then [] else slots[i] + Flat(slots, i + 1)
  }

  function Min(a: int, b: int): int {
    if a < b then a else b
  }

  function Drop(bs: seq<byte>, k: nat): seq<byte> {
    if k <= |bs| then bs[k..] else []
  }

  lemma {:induction false} FlatAppend(a: seq<seq<byte>>, b: seq<seq<byte>>, i: nat)
    requires i <= |a|
    ensures Flat(a + b, i) == Flat(a, i) + Flat(b, 0)
    decreases |a| - i
  {
    if i == |a| {
      FlatShift(a, b, 0);
    } else {
      FlatAppend(a, b, i + 1);
    }
  }

  lemma {:induction false} FlatShift(a: seq<seq<byte>>, b: seq<seq<byte>>, i: nat)
    requires i <= |b|
    ensures Flat(a + b, |a| + i) == Flat(b, i)
    decreases |b| - i
  {
    if i < |b| {
      FlatShift(a, b, i + 1);
    }
  }

  /** Empty slots hold nothing. */
  lemma {:induction false} FlatSkip(slots: seq<seq<byte>>, i: nat, j: nat)
    requires i <= j <= |slots| && forall k :: i <= k < j ==> slots[k] == []
    ensures Flat(slots, i) == Flat(slots, j)
    decreases j - i
  {
    if i < j {
      FlatSkip(slots, i + 1, j);
    }
  }

  /** Only the slots from `i` on matter. */
  lemma {:induction false} FlatAgree(a: seq<seq<byte>>, b: seq<seq<byte>>, i: nat)
    requires i <= |a| == |b| && forall k :: i <= k < |a| ==> a[k] == b[k]
    ensures Flat(a, i) == Flat(b, i)
    decreases |a| - i
  {
    if i < |a| {
      FlatAgree(a, b, i + 1);
    }
  }

  // --------------------------------------------------------- flat meaning

  /** Go's int(n) for a uint64. */
  function ToInt64(n: nat): int
    requires n <= MAX_UINT64
  {
    if n < 0x8000_0000_0000_0000 then n else n - 0x1_0000_0000_0000_0000
  }

  /** One block: its length and its bytes. */
  function Block(data: seq<byte>): seq<byte> {
    Pack64(|data|) + data
  }

  function Blocks(list: seq<seq<byte>>): seq<byte> {
    if list == [] then [] else Block(list[0]) + Blocks(list[1..])
  }

  /** What reading `n` bytes returns and leaves. A negative amount reads nothing and is no error. */
  function TakeBytes(v: seq<byte>, n: int): (Result<seq<byte>, Error>, seq<byte>) {
    if n <= 0 then (Ok([]), v)
    else if n > |v| then (Err(NotEnoughData), v)
    else (Ok(v[..n]), v[n..])
  }

  function TakeNumber(v: seq<byte>): (Result<nat, Error>, seq<byte>) {
    match Unpack64(Prefix(v, MAX_LEN))
    case Err(e) => (Err(e), v)
    case Ok(num) => (Ok(num.value), Drop(v, num.used))
  }

  /** What reading a block returns and leaves; if the data is short, the length is consumed. */
  function TakeBlock(v: seq<byte>): (Result<seq<byte>, Error>, seq<byte>) {
    var (num, rest) := TakeNumber(v);
    match num
    case Err(e) => (Err(e), v)
    case Ok(n) => UnpackBound(Prefix(v, MAX_LEN)); TakeBytes(rest, ToInt64(n))
  }

  /** Reads `k` blocks in a row. */
  function TakeBlocks(v: seq<byte>, k: nat): (Result<seq<seq<byte>>, Error>, seq<byte>)
    decreases k
  {
    if k == 0 then (Ok([]), v)
    else
      match TakeBlock(v)
      case (Err(e), rest) => (Err(e), rest)
      case (Ok(b), rest) =>
        match TakeBlocks(rest, k - 1)
        case (Err(e), rest') => (Err(e), rest')
        case (Ok(bs), rest') => (Ok([b] + bs), rest')
  }

  /** The largest length a Go slice can have. */
  const MAX_INT: nat := 0x7FFF_FFFF_FFFF_FFFF

  /** One framed block at the front is read back exactly, whatever follows it. */
  lemma BlockRoundTrip(data: seq<byte>, rest: seq<byte>)
    requires |data| <= MAX_INT
    ensures TakeBlock(Block(data) + rest) == (Ok(data), rest)
  {
    var v := Block(data) + rest;
    PackRoundTrip(|data|, data + rest);
    assert v == Pack64(|data|) + (data + rest);
    TenBytesSuffice(v);
    assert Drop(v, |Pack64(|data|)|) == data + rest;
    assert (data + rest)[..|data|] == data && (data + rest)[|data|..] == rest;
  }

  /** The block read has the length it announces if and only if that length fits an int and the data is
      there. */
  lemma BlockLengthIff(v: seq<byte>, n: nat)
    requires TakeNumber(v).0 == Ok(n)
    ensures TakeBlock(v).0.Ok? && |TakeBlock(v).0.value| == n <==> n <= MAX_INT && n <= |TakeNumber(v).1|
  {
    UnpackBound(Prefix(v, MAX_LEN));
  }

  /** A length of 2^63 is answered with an empty block and no error; only the length is consumed. */
  lemma HugeLengthIsEmpty(rest: seq<byte>)
    ensures TakeBlock(Pack64(0x8000_0000_0000_0000) + rest) == (Ok([]), rest)
  {
    var v := Pack64(0x8000_0000_0000_0000) + rest;
    PackRoundTrip(0x8000_0000_0000_0000, rest);
    TenBytesSuffice(v);
    assert Drop(v, |Pack64(0x8000_0000_0000_0000)|) == rest;
  }

  lemma TakeFirst(v: seq<byte>, list: seq<seq<byte>>, next: seq<byte>, rest: seq<byte>)
    requires list != [] && TakeBlock(v) == (Ok(list[0]), next)
    requires TakeBlocks(next, |list| - 1) == (Ok(list[1..]), rest)
    ensures TakeBlocks(v, |list|) == (Ok(list), rest)
  {
    assert [list[0]] + list[1..] == list;
  }

  /** Any list of framed blocks is read back in order, and the bytes behind it stay untouched. */
  lemma {:induction false} BlocksRoundTrip(list: seq<seq<byte>>, rest: seq<byte>)
    requires forall i :: 0 <= i < |list| ==> |list[i]| <= MAX_INT
    ensures TakeBlocks(Blocks(list) + rest, |list|) == (Ok(list), rest)
  {
    if list == [] {
      assert Blocks(list) + rest == rest;
    } else {
      assert Blocks(list) + rest == Block(list[0]) + (Blocks(list[1..]) + rest);
      BlockRoundTrip(list[0], Blocks(list[1..]) + rest);
      BlocksRoundTrip(list[1..], rest);
      TakeFirst(Blocks(list) + rest, list, Blocks(list[1..]) + rest, rest);
    }
  }

  /** Appending a block behind framed blocks frames the longer list. */
  lemma {:induction false} BlocksSnoc(list: seq<seq<byte>>, data: seq<byte>)
    ensures Blocks(list + [data]) == Blocks(list) + Block(data)
  {
    if list == [] {
      assert list + [data] == [data];
    } else {
      BlocksSnoc(list[1..], data);
      assert (list + [data])[1..] == list[1..] + [data];
    }
  }

  // ------------------------------------------------------------ container

  class Container {
    var compartments: seq<seq<byte>>
    var offset: int

    /** The slots below the offset hold nothing, although several operations copy them along. */
    ghost predicate Valid()
      reads this
    {
      && (0 <= offset < |compartments| || (offset == 0 && compartments == []))
      && forall i :: 0 <= i < offset ==> compartments[i] == []
    }

    ghost function View(): seq<byte>
      requires Valid()
      reads this
    {
      Flat(compartments, offset)
    }

    constructor (data: seq<seq<byte>>)
      ensures Valid() && View() == Flat(data, 0)
      ensures compartments == data && offset == 0
    {
      compartments := data;
      offset := 0;
    }

    method Prepend(data: seq<byte>)
      requires Valid()
      modifies this
      ensures Valid() && View() == data + old(View()) && compartments != []
    {
      if offset < 1 {
        RenewCompartments();
      }
      offset := offset - 1;
      SetSlot(offset, data);
    }

    /** Go's renewCompartments: five fresh slots in front, the last of which stays above the offset. */
    method RenewCompartments()
      requires Valid()
      modifies this
      ensures Valid() && View() == old(View()) && offset == 4
      ensures Flat(compartments, offset) == Flat(compartments, offset + 1) == old(View())
    {
      ghost var slots, o := compartments, offset;
      compartments := [[], [], [], [], []] + compartments[offset..];
      offset := 4;
      FlatShift(slots[..o], slots[o..], 0);
      assert slots[..o] + slots[o..] == slots;
      FlatShift([[], [], [], [], []], slots[o..], 0);
    }

    method Append(data: seq<byte>)
      requires Valid()
      modifies this
      ensures Valid() && View() == old(View()) + data && compartments != []
    {
      AppendSlots([data]);
      assert Flat([data], 0) == data + Flat([data], 1);
    }

    /** append(c.compartments, slots...): only the view of the added slots counts. */
    method AppendSlots(slots: seq<seq<byte>>)
      requires Valid()
      modifies this
      ensures Valid() && View() == old(View()) + Flat(slots, 0) && compartments == old(compartments) + slots
    {
      FlatAppend(compartments, slots, offset);
      compartments := compartments + slots;
      if old(compartments) == [] && slots == [] {
        assert compartments == [];
      }
    }

    /** Copies all slots of `data`, also those below its offset, and yet adds only its view. `data` may
        be the container itself. */
    method AppendContainer(data: Container)
      requires Valid() && data.Valid()
      modifies this
      ensures Valid() && View() == old(View()) + old(data.View())
    {
      FlatSkip(data.compartments, 0, data.offset);
      AppendSlots(data.compartments);
    }

    method AppendNumber(n: nat)
      requires Valid() && n <= MAX_UINT64
      modifies this
      ensures Valid() && View() == old(View()) + Pack64(n) && compartments != []
    {
      Append(Pack64(n));
    }

    method PrependNumber(n: nat)
      requires Valid() && n <= MAX_UINT64
      modifies this
      ensures Valid() && View() == Pack64(n) + old(View()) && compartments != []
    {
      Prepend(Pack64(n));
    }

    method AppendAsBlock(data: seq<byte>)
      requires Valid() && |data| <= MAX_INT
      modifies this
      ensures Valid() && View() == old(View()) + Block(data) && compartments != []
    {
      AppendNumber(|data|);
      Append(data);
    }

    method PrependAsBlock(data: seq<byte>)
      requires Valid() && |data| <= MAX_INT
      modifies this
      ensures Valid() && View() == Block(data) + old(View()) && compartments != []
    {
      Prepend(data);
      PrependNumber(|data|);
    }

    /** Appends a well-formed block unless the container is appended to itself: then the slots copied
        include the length just written. */
    method AppendContainerAsBlock(data: Container)
      requires Valid() && data.Valid() && |data.View()| <= MAX_INT
      modifies this
      ensures Valid() && compartments != []
      ensures data != this ==> View() == old(View()) + Block(old(data.View()))
      ensures data == this ==> View() == old(View()) + Block(old(View())) + Pack64(|old(View())|)
    {
      ghost var before, added := View(), data.View();
      var n := data.Length();
      AppendNumber(n);
      AppendContainer(data);
      if data != this {
        assert before + Pack64(n) + added == before + Block(added);
      } else {
        assert before + Pack64(n) + (before + Pack64(n)) == before + Block(before) + Pack64(n);
      }
    }

    method HoldsData() returns (holds: bool)
      requires Valid()
      ensures holds <==> View() != []
    {
      var i := offset;
      while i < |compartments|
        invariant offset <= i <= |compartments|
        invariant Flat(compartments, i) == View()
      {
        if |compartments[i]| > 0 {
          return true;
        }
        i := i + 1;
      }
      return false;
    }

    method Length() returns (length: nat)
      requires Valid()
      ensures length == |View()|
    {
      length := 0;
      var i := offset;
      while i < |compartments|
        invariant offset <= i <= |compartments|
        invariant length + |Flat(compartments, i)| == |View()|
      {
        length := length + |compartments[i]|;
        i := i + 1;
      }
    }

    /** c.compartments[i] = slot: the bytes behind the slot stay as they are. */
    method SetSlot(i: nat, slot: seq<byte>)
      requires i < |compartments|
      modifies this`compartments
      ensures compartments == old(compartments)[i := slot]
      ensures Flat(compartments, i + 1) == Flat(old(compartments), i + 1)
      ensures Flat(compartments, i) == slot + Flat(old(compartments), i + 1)
    {
      compartments := compartments[i := slot];
      FlatAgree(compartments, old(compartments), i + 1);
    }

    /** The offset wraps to the middle once everything is consumed; this never changes the view. */
    method CheckOffset()
      requires 0 <= offset <= |compartments|
      requires forall i :: 0 <= i < offset ==> compartments[i] == []
      modifies this`offset
      ensures Valid() && View() == old(Flat(compartments, offset))
    {
      if offset >= |compartments| {
        offset := |compartments| / 2;
        FlatSkip(compartments, offset, |compartments|);
      }
    }

    /** Many used-up slots in front are given up; few are left alone. */
    method Clean()
      requires Valid()
      modifies this
      ensures Valid() && View() == old(View()) && offset <= 100
      ensures old(offset) <= 100 ==> compartments == old(compartments) && offset == old(offset)
    {
      if offset > 100 {
        RenewCompartments();
      }
    }

    /** Returns all data in one slice and keeps it. */
    method CompileData() returns (data: seq<byte>)
      requires Valid()
      modifies this
      ensures Valid() && data == View() == old(View()) && compartments == [data]
    {
      if |compartments| != 1 {
        var n := Length();
        var newBuf := new byte[n];
        ghost var view := View();
        var pos: nat := 0;
        var i := offset;
        while i < |compartments|
          invariant unchanged(this) && offset <= i <= |compartments| && pos <= n == |view|
          invariant forall k :: 0 <= k < pos ==> newBuf[k] == view[k]
          invariant view[pos..] == Flat(compartments, i)
        {
          SlotInView(view, pos, compartments[i], Flat(compartments, i + 1));
          CopyInto(newBuf, pos, compartments[i]);
          pos := pos + |compartments[i]|;
          i := i + 1;
        }
        assert newBuf[..] == view;
        compartments := [newBuf[..]];
        offset := 0;
      }
      assert Flat(compartments, 0) == compartments[0] + Flat(compartments, 1);
      return compartments[0];
    }

    /** The first n bytes, or all there are. */
    method Peek(n: int) returns (data: seq<byte>)
      requires Valid() && (n > 0 ==> compartments != [])
      ensures data == if n <= 0 then [] else View()[..Min(n, |View()|)]
    {
      if n <= 0 {
        return [];
      }
      if |compartments[offset]| >= n {
        return compartments[offset][..n];
      }
      var slice := new byte[n];
      ghost var view := View();
      var got: nat := 0;
      var i := offset;
      while i < |compartments|
        invariant offset <= i <= |compartments| && got <= n && got <= |view|
        invariant forall k :: 0 <= k < got ==> slice[k] == view[k]
        invariant view[got..] == Flat(compartments, i)
      {
        SlotInView(view, got, compartments[i], Flat(compartments, i + 1));
        CopyInto(slice, got, compartments[i]);
        if n - got <= |compartments[i]| {
          got := n;
          return slice[..got];
        }
        got := got + |compartments[i]|;
        i := i + 1;
      }
      return slice[..got];
    }

    /** Consumes n bytes, or all there are. */
    method Skip(n: nat)
      requires Valid()
      modifies this
      ensures Valid() && View() == Drop(old(View()), n) && |compartments| == |old(compartments)|
    {
      ghost var rest := Drop(View(), n);
      var left: nat := n;
      var i := offset;
      while i < |compartments|
        invariant 0 <= i == offset <= |compartments| == |old(compartments)|
        invariant forall j :: 0 <= j < i ==> compartments[j] == []
        invariant Drop(Flat(compartments, i), left) == rest
      {
        ghost var behind := Flat(compartments, i + 1);
        DropStep(compartments[i], behind, left);
        if |compartments[i]| <= left {
          left := left - |compartments[i]|;
          offset := i + 1;
          SetSlot(i, []);
          i := i + 1;
          if left == 0 {
            assert Flat(compartments, i) == behind == rest;
            CheckOffset();
            return;
          }
        } else {
          SetSlot(i, compartments[i][left..]);
          assert Flat(compartments, i) == rest;
          CheckOffset();
          return;
        }
      }
      CheckOffset();
    }

    method Get(n: int) returns (r: Result<seq<byte>, Error>)
      requires Valid() && (n > 0 ==> compartments != [])
      modifies this
      ensures Valid() && (r, View()) == TakeBytes(old(View()), n) && |compartments| == |old(compartments)|
      ensures r.Err? <==> n > |old(View())|
      ensures r.Err? ==> View() == old(View())
      ensures r.Ok? ==> r.value + View() == old(View()) && |r.value| == if n < 0 then 0 else n
    {
      var buf := Peek(n);
      if |buf| < n {
        return Err(NotEnoughData);
      }
      Skip(|buf|);
      return Ok(buf);
    }

    method GetAll() returns (data: seq<byte>)
      requires Valid()
      modifies this
      ensures Valid() && data == old(View()) && View() == []
    {
      var n := Length();
      data := Peek(n);
      Skip(|data|);
    }

    method GetMax(n: int) returns (data: seq<byte>)
      requires Valid() && (n > 0 ==> compartments != [])
      modifies this
      ensures Valid() && old(View()) == data + View()
      ensures |data| == if n <= 0 then 0 else Min(n, |old(View())|)
    {
      data := Peek(n);
      Skip(|data|);
    }

    /** Fills the slice as far as possible; reports the container emptied exactly if everything fit. */
    method WriteToSlice(slice: array<byte>) returns (n: nat, emptied: bool)
      requires Valid()
      modifies this, slice
      ensures Valid() && n == Min(|old(View())|, slice.Length)
      ensures forall k :: 0 <= k < slice.Length ==> slice[k] == if k < n then old(View())[k] else old(slice[k])
      ensures View() == old(View())[n..]
      ensures emptied <==> |old(View())| <= slice.Length
    {
      ghost var view := View();
      n := 0;
      var i := offset;
      while i < |compartments|
        invariant 0 <= i == offset <= |compartments| && n <= slice.Length && n <= |view|
        invariant forall j :: 0 <= j < i ==> compartments[j] == []
        invariant forall k :: 0 <= k < n ==> slice[k] == view[k]
        invariant forall k :: n <= k < slice.Length ==> slice[k] == old(slice[k])
        invariant view[n..] == Flat(compartments, i)
      {
        SlotInView(view, n, compartments[i], Flat(compartments, i + 1));
        CopyInto(slice, n, compartments[i]);
        if slice.Length - n < |compartments[i]| {
          // Only a part was copied.
          var part := slice.Length - n;
          n := n + part;
          SetSlot(i, compartments[i][part..]);
          CheckOffset();
          return n, false;
        }
        n := n + |compartments[i]|;
        SetSlot(i, []);
        offset := i + 1;
        i := i + 1;
      }
      CheckOffset();
      return n, true;
    }

    /** A new container over the first n bytes, or null if there are fewer. */
    method PeekContainer(n: int) returns (newC: Container?)
      requires Valid()
      ensures newC == null <==> n < 0 || n > |View()|
      ensures newC != null ==> fresh(newC) && newC.Valid() && newC.View() == View()[..n]
    {
      if n < 0 {
        return null;
      } else if n == 0 {
        newC := new Container([]);
        return;
      }
      var slots: seq<seq<byte>> := [];
      var left := n;
      var i := offset;
      while i < |compartments|
        invariant offset <= i <= |compartments| && 0 <= left
        invariant |Flat(slots, 0)| == n - left
        invariant left > 0 ==> Flat(slots, 0) + Flat(compartments, i) == View()
        invariant left == 0 ==> Flat(slots, 0) <= View()
      {
        if left >= |compartments[i]| {
          FlatSnoc(slots, compartments[i]);
          slots := slots + [compartments[i]];
          left := left - |compartments[i]|;
        } else {
          FlatSnoc(slots, compartments[i][..left]);
          slots := slots + [compartments[i][..left]];
          left := 0;
        }
        i := i + 1;
      }
      if left > 0 {
        return null;
      }
      newC := new Container(slots);
    }

    method GetAsContainer(n: int) returns (newC: Container?)
      requires Valid()
      modifies this
      ensures Valid() && (newC == null <==> n < 0 || n > |old(View())|)
      ensures newC == null ==> View() == old(View())
      ensures newC != null ==> fresh(newC) && newC.Valid() && newC.View() == old(View())[..n] && View() == old(View())[n..]
      ensures |compartments| == |old(compartments)|
    {
      newC := PeekContainer(n);
      if newC != null {
        Skip(n);
      }
    }

    method PrependLength()
      requires Valid() && |View()| <= MAX_INT
      modifies this
      ensures Valid() && View() == Block(old(View())) && compartments != []
    {
      var n := Length();
      PrependNumber(n);
    }

    method GetNextN64() returns (r: Result<nat, Error>)
      requires Valid() && compartments != []
      modifies this
      ensures Valid() && (r, View()) == TakeNumber(old(View())) && compartments != []
    {
      var buf := Peek(MAX_LEN);
      assert buf == Prefix(View(), MAX_LEN);
      match Unpack64(buf)
      case Err(e) => return Err(e);
      case Ok(num) =>
        Skip(num.used);
        return Ok(num.value);
    }

    method GetNextBlock() returns (r: Result<seq<byte>, Error>)
      requires Valid() && compartments != []
      modifies this
      ensures Valid() && (r, View()) == TakeBlock(old(View())) && compartments != []
      ensures var (num, rest) := TakeNumber(old(View()));
              num.Ok? ==> (r.Ok? && |r.value| == num.value <==> num.value <= MAX_INT && num.value <= |rest|)
    {
      ghost var view := View();
      if TakeNumber(view).0.Ok? {
        BlockLengthIff(view, TakeNumber(view).0.value);
      }
      UnpackBound(Prefix(View(), MAX_LEN));
      var size := GetNextN64();
      match size
      case Err(e) => return Err(e);
      case Ok(n) => r := Get(ToInt64(n));
    }
  }

  // ------------------------------------------------------- lists of blocks

  /** AppendAsBlock for every block of a list. */
  method AppendBlocks(c: Container, list: seq<seq<byte>>)
    requires c.Valid() && forall i :: 0 <= i < |list| ==> |list[i]| <= MAX_INT
    modifies c
    ensures c.Valid() && c.View() == old(c.View()) + Blocks(list)
    ensures old(c.compartments) != [] || list != [] ==> c.compartments != []
  {
    var i := 0;
    while i < |list|
      invariant 0 <= i <= |list| && c.Valid()
      invariant c.View() == old(c.View()) + Blocks(list[..i])
      invariant old(c.compartments) != [] || i > 0 ==> c.compartments != []
    {
      c.AppendAsBlock(list[i]);
      BlocksSnoc(list[..i], list[i]);
      assert list[..i] + [list[i]] == list[..i + 1];
      i := i + 1;
    }
    assert list[..i] == list;
  }

  /** PrependAsBlock for every block of a list, the last one first. */
  method PrependBlocks(c: Container, list: seq<seq<byte>>)
    requires c.Valid() && forall i :: 0 <= i < |list| ==> |list[i]| <= MAX_INT
    modifies c
    ensures c.Valid() && c.View() == Blocks(list) + old(c.View())
    ensures old(c.compartments) != [] || list != [] ==> c.compartments != []
  {
    var i := |list|;
    while i > 0
      invariant 0 <= i <= |list| && c.Valid()
      invariant c.View() == Blocks(list[i..]) + old(c.View())
      invariant old(c.compartments) != [] || i < |list| ==> c.compartments != []
    {
      i := i - 1;
      c.PrependAsBlock(list[i]);
      assert list[i..][1..] == list[i + 1..];
    }
    assert list[i..] == list;
  }

  /** GetNextBlock `k` times, until the first error. */
  method GetBlocks(c: Container, k: nat) returns (r: Result<seq<seq<byte>>, Error>)
    requires c.Valid() && (k > 0 ==> c.compartments != [])
    modifies c
    ensures c.Valid() && (r, c.View()) == TakeBlocks(old(c.View()), k)
  {
    var blocks: seq<seq<byte>> := [];
    var i := 0;
    ghost var all := TakeBlocks(c.View(), k);
    BehindNothing([], all);
    while i < k
      invariant 0 <= i <= k && c.Valid() && (k > 0 ==> c.compartments != [])
      invariant all == Behind(blocks, TakeBlocks(c.View(), k - i))
    {
      var block := GetOneMore(c, blocks, k - i, all);
      if block.Err? {
        return Err(block.error);
      }
      blocks := blocks + [block.value];
      i := i + 1;
    }
    BehindNothing(blocks, (Ok([]), c.View()));
    return Ok(blocks);
  }

  method GetOneMore(c: Container, ghost blocks: seq<seq<byte>>, ghost k: nat,
                    ghost all: (Result<seq<seq<byte>>, Error>, seq<byte>)) returns (block: Result<seq<byte>, Error>)
    requires c.Valid() && c.compartments != [] && k > 0 && all == Behind(blocks, TakeBlocks(c.View(), k))
    modifies c
    ensures c.Valid() && c.compartments != []
    ensures block.Err? ==> all == (Err(block.error), c.View())
    ensures block.Ok? ==> all == Behind(blocks + [block.value], TakeBlocks(c.View(), k - 1))
  {
    TakeOneMore(c.View(), blocks, k);
    block := c.GetNextBlock();
  }

  lemma TakeOneMore(v: seq<byte>, blocks: seq<seq<byte>>, k: nat)
    requires k > 0
    ensures Behind(blocks, TakeBlocks(v, k)) ==
              match TakeBlock(v)
              case (Err(e), rest) => (Err(e), rest)
              case (Ok(b), rest) => Behind(blocks + [b], TakeBlocks(rest, k - 1))
  {
    var (block, rest) := TakeBlock(v);
    if block.Ok? {
      BehindMore(blocks, block.value, TakeBlocks(rest, k - 1));
    }
  }

  lemma BehindNothing(blocks: seq<seq<byte>>, read: (Result<seq<seq<byte>>, Error>, seq<byte>))
    ensures Behind([], read) == read
    ensures Behind(blocks, (Ok([]), read.1)) == (Ok(blocks), read.1)
  {
    if read.0.Ok? {
      assert [] + read.0.value == read.0.value;
    }
    assert blocks + [] == blocks;
  }

  /** The outcome of a read behind blocks read before. */
  function Behind(blocks: seq<seq<byte>>, read: (Result<seq<seq<byte>>, Error>, seq<byte>))
    : (Result<seq<seq<byte>>, Error>, seq<byte>)
  {
    match read
    case (Ok(more), rest) => (Ok(blocks + more), rest)
    case (Err(e), rest) => (Err(e), rest)
  }

  lemma BehindMore(blocks: seq<seq<byte>>, block: seq<byte>, read: (Result<seq<seq<byte>>, Error>, seq<byte>))
    ensures Behind(blocks, Behind([block], read)) == Behind(blocks + [block], read)
  {
    if read.0.Ok? {
      assert blocks + ([block] + read.0.value) == blocks + [block] + read.0.value;
    }
  }

  /** Blocks appended to an empty container are read back in order, whatever is appended behind them. */
  method AppendedBlocksComeBack(c: Container, list: seq<seq<byte>>, trailing: seq<byte>)
    returns (r: Result<seq<seq<byte>>, Error>)
    requires c.Valid() && c.View() == [] && forall i :: 0 <= i < |list| ==> |list[i]| <= MAX_INT
    modifies c
    ensures c.Valid() && r == Ok(list) && c.View() == trailing
  {
    AppendBlocks(c, list);
    c.Append(trailing);
    BlocksRoundTrip(list, trailing);
    assert [] + Blocks(list) == Blocks(list);
    r := GetBlocks(c, |list|);
  }

  /** Blocks prepended in reverse are read back in order, and what was in the container stays. */
  method PrependedBlocksComeBack(c: Container, list: seq<seq<byte>>) returns (r: Result<seq<seq<byte>>, Error>)
    requires c.Valid() && forall i :: 0 <= i < |list| ==> |list[i]| <= MAX_INT
    modifies c
    ensures c.Valid() && r == Ok(list) && c.View() == old(c.View())
  {
    PrependBlocks(c, list);
    BlocksRoundTrip(list, old(c.View()));
    r := GetBlocks(c, |list|);
  }

  lemma FlatSnoc(slots: seq<seq<byte>>, slot: seq<byte>)
    ensures Flat(slots + [slot], 0) == Flat(slots, 0) + slot
  {
    FlatAppend(slots, [slot], 0);
    assert Flat([slot], 0) == slot + Flat([slot], 1);
  }

  lemma DropStep(slot: seq<byte>, rest: seq<byte>, k: nat)
    ensures |slot| <= k ==> Drop(slot + rest, k) == Drop(rest, k - |slot|)
    ensures k < |slot| ==> Drop(slot + rest, k) == slot[k..] + rest
  {}

  /** Where the next slot lies in the view. */
  lemma SlotInView(view: seq<byte>, pos: nat, src: seq<byte>, rest: seq<byte>)
    requires pos <= |view| && view[pos..] == src + rest
    ensures |view| == pos + |src| + |rest|
    ensures forall k :: pos <= k < pos + |src| ==> view[k] == src[k - pos]
    ensures view[pos + |src|..] == rest
    ensures forall k :: 0 <= k <= |src| ==> view[pos + k..] == src[k..] + rest
  {
    assert |view| == pos + |src + rest|;
    forall k | pos <= k < |view| ensures view[k] == (src + rest)[k - pos] {
      assert view[k] == view[pos..][k - pos];
    }
  }

  /** Go's copy(dst[pos:], src). */
  method CopyInto(dst: array<byte>, pos: nat, src: seq<byte>)
    requires pos <= dst.Length
    modifies dst
    ensures forall k :: pos <= k < dst.Length && k < pos + |src| ==> dst[k] == src[k - pos]
    ensures forall k :: 0 <= k < dst.Length && (k < pos || pos + |src| <= k) ==> dst[k] == old(dst[k])
  {
    forall k | pos <= k < dst.Length && k < pos + |src| {
      dst[k] := src[k - pos];
    }
  }
}
