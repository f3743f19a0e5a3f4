/** The varint format of the containers: unsigned LEB128 (section 7.6 of DWARF 5) limited to 64 bits,
  which base/README.md names as the format of encoding/binary. */
module Varint {
  import opened Common

  type byte = x: int | 0 <= x < 256

  const MAX_UINT64: nat := 0xFFFF_FFFF_FFFF_FFFF
  const MAX_LEN: nat := 10

  datatype Error = TooSmall | Overflow | NotEnoughData

  /** A decoded number and the number of bytes it took. */
  datatype Number = Number(value: nat, used: nat)

  function Pack64(n: nat): (bs: seq<byte>)
    ensures |bs| > 0
  {
    if n < 128 then [n] else [128 + n % 128] + Pack64(n / 128)
  }

  /** Decodes a number of which `i` bytes have been read already. */
  function Scan(bs: seq<byte>, i: nat): Result<Number, Error>
    decreases |bs|
  {
    if |bs| == 0 then Err(TooSmall)
    else if i == MAX_LEN then Err(Overflow)
    else if bs[0] < 128 then
      if i == MAX_LEN - 1 && bs[0] > 1 then Err(Overflow) else Ok(Number(bs[0], 1))
    else
      match Scan(bs[1..], i + 1)
      case Err(e) => Err(e)
      case Ok(rest) => Ok(Number(bs[0] - 128 + 128 * rest.value, rest.used + 1))
  }

  function Unpack64(bs: seq<byte>): Result<Number, Error> {
    Scan(bs, 0)
  }

  /** The values that still fit when `i` bytes have been read. */
  function Room(i: nat): nat
    requires i <= MAX_LEN
  {
    if i == 0 then 0x1_0000_0000_0000_0000
    else if i == 1 then 0x200_0000_0000_0000
    else if i == 2 then 0x4_0000_0000_0000
    else if i == 3 then 0x800_0000_0000
    else if i == 4 then 0x10_0000_0000
    else if i == 5 then 0x2000_0000
    else if i == 6 then 0x40_0000
    else if i == 7 then 0x8000
    else if i == 8 then 0x100
    else if i == 9 then 2
    else 0
  }

  lemma {:induction false} ScanPack(n: nat, i: nat, rest: seq<byte>)
    requires i < MAX_LEN && n < Room(i)
    ensures Scan(Pack64(n) + rest, i) == Ok(Number(n, |Pack64(n)|))
    ensures i + |Pack64(n)| <= MAX_LEN
    decreases n
  {
    var bs := Pack64(n) + rest;
    if n >= 128 {
      ScanPack(n / 128, i + 1, rest);
      assert bs[1..] == Pack64(n / 128) + rest;
    }
  }

  /** Decoding what was encoded gives the number back, whatever follows, and ten bytes always hold it. */
  lemma PackRoundTrip(n: nat, rest: seq<byte>)
    requires n <= MAX_UINT64
    ensures Unpack64(Pack64(n) + rest) == Ok(Number(n, |Pack64(n)|))
    ensures |Pack64(n)| <= MAX_LEN
  {
    ScanPack(n, 0, rest);
  }

  lemma {:induction false} ScanBound(bs: seq<byte>, i: nat)
    requires i <= MAX_LEN
    ensures Scan(bs, i).Ok? ==>
              0 < Scan(bs, i).value.used <= |bs| && i + Scan(bs, i).value.used <= MAX_LEN
              && Scan(bs, i).value.value < Room(i)
    decreases |bs|
  {
    if |bs| > 0 && i < MAX_LEN && bs[0] >= 128 {
      ScanBound(bs[1..], i + 1);
    }
  }

  /** Every accepted number fits 64 bits and uses at most ten of the given bytes. */
  lemma UnpackBound(bs: seq<byte>)
    ensures Unpack64(bs).Ok? ==>
              0 < Unpack64(bs).value.used <= |bs| && Unpack64(bs).value.used <= MAX_LEN
              && Unpack64(bs).value.value <= MAX_UINT64
  {
    ScanBound(bs, 0);
  }

  /** Decoding looks at no more than the bytes that make up the number. */
  lemma {:induction false} ScanPrefix(bs: seq<byte>, k: nat, i: nat)
    requires k <= |bs| && k + i == MAX_LEN
    ensures Scan(bs, i).Ok? == Scan(bs[..k], i).Ok?
    ensures Scan(bs, i).Ok? ==> Scan(bs, i) == Scan(bs[..k], i)
    decreases |bs|
  {
    if k > 0 {
      ScanPrefix(bs[1..], k - 1, i + 1);
      assert bs[..k][1..] == bs[1..][..k - 1];
    }
  }

  /** The number that the low seven bits of the bytes make up, the first ones counting least. */
  function Groups(bs: seq<byte>): nat {
    if bs == [] then 0 else bs[0] % 128 + 128 * Groups(bs[1..])
  }

  /** The high bit of every byte tells whether another one follows. */
  predicate Terminated(bs: seq<byte>) {
    bs != [] && bs[|bs| - 1] < 128 && forall i :: 0 <= i < |bs| - 1 ==> bs[i] >= 128
  }

  /** The format: seven bits a byte, the lowest first, a high bit on all bytes but the last, and no byte too many. */
  lemma {:induction false} PackFormat(n: nat)
    ensures Terminated(Pack64(n)) && Groups(Pack64(n)) == n
    ensures |Pack64(n)| > 1 ==> Pack64(n)[|Pack64(n)| - 1] != 0
    decreases n
  {
    if n >= 128 {
      PackFormat(n / 128);
      assert Pack64(n)[1..] == Pack64(n / 128);
    } else {
      assert Pack64(n)[1..] == [];
    }
  }

  lemma {:induction false} ScanEnds(bs: seq<byte>, k: nat, i: nat)
    requires k <= |bs| && i <= MAX_LEN && Terminated(bs[..k])
    ensures Scan(bs, i) ==
              if i + k <= MAX_LEN && Groups(bs[..k]) < Room(i) then Ok(Number(Groups(bs[..k]), k)) else Err(Overflow)
    decreases k
  {
    assert bs[..k][0] == bs[0];
    var rest := bs[..k][1..];
    assert rest == bs[1..][..k - 1];
    if bs[0] >= 128 && i < MAX_LEN {
      forall j | 0 <= j < |rest| - 1 ensures rest[j] >= 128 {
        assert rest[j] == bs[..k][j + 1];
      }
      ScanEnds(bs[1..], k - 1, i + 1);
    } else if bs[0] < 128 {
      assert rest == [];
    }
  }

  lemma {:induction false} ScanDoesNotEnd(bs: seq<byte>, i: nat)
    requires i <= MAX_LEN && forall j :: 0 <= j < |bs| ==> bs[j] >= 128
    ensures Scan(bs, i) == Err(if i + |bs| <= MAX_LEN then TooSmall else Overflow)
    decreases |bs|
  {
    if bs != [] && i < MAX_LEN {
      ScanDoesNotEnd(bs[1..], i + 1);
    }
  }

  /** What decoding gives for all data: the number in that format up to the first byte without a high bit, if it takes
      at most ten bytes and fits 64 bits, and an overflow if not; without such a byte the data is too small, or too
      long. */
  lemma UnpackIs(bs: seq<byte>, k: nat)
    requires k <= |bs|
    ensures Terminated(bs[..k]) ==>
              Unpack64(bs) == if k <= MAX_LEN && Groups(bs[..k]) <= MAX_UINT64 then Ok(Number(Groups(bs[..k]), k))
                              else Err(Overflow)
    ensures (forall j :: 0 <= j < |bs| ==> bs[j] >= 128) ==>
              Unpack64(bs) == Err(if |bs| <= MAX_LEN then TooSmall else Overflow)
  {
    if Terminated(bs[..k]) {
      ScanEnds(bs, k, 0);
    }
    if forall j :: 0 <= j < |bs| ==> bs[j] >= 128 {
      ScanDoesNotEnd(bs, 0);
    }
  }

  function Prefix(bs: seq<byte>, k: nat): seq<byte> {
    if k <= |bs| then bs[..k] else bs
  }

  /** A peek of ten bytes decides the number: it decodes to the same as all the data. */
  lemma TenBytesSuffice(bs: seq<byte>)
    ensures Unpack64(Prefix(bs, MAX_LEN)).Ok? == Unpack64(bs).Ok?
    ensures Unpack64(bs).Ok? ==> Unpack64(Prefix(bs, MAX_LEN)) == Unpack64(bs)
  {
    if MAX_LEN <= |bs| {
      ScanPrefix(bs, MAX_LEN, 0);
    }
  }

  /** The kinds of error agree as well, except for a number of more than ten bytes: the peek is too small
      where all the data overflows. */
  lemma TenBytesErrorIff(bs: seq<byte>)
    ensures Unpack64(Prefix(bs, MAX_LEN)) == Unpack64(bs) <==>
              !(|bs| > MAX_LEN && forall i :: 0 <= i < MAX_LEN ==> bs[i] >= 128)
  {
    if |bs| > MAX_LEN {
      ScanErrorIff(bs, MAX_LEN, 0);
    } else {
      assert Prefix(bs, MAX_LEN) == bs;
    }
  }

  lemma {:induction false} ScanErrorIff(bs: seq<byte>, k: nat, i: nat)
    requires k < |bs| && k + i == MAX_LEN
    ensures Scan(bs[..k], i) == Scan(bs, i) <==> !forall j :: 0 <= j < k ==> bs[j] >= 128
    decreases |bs|
  {
    if k > 0 {
      assert bs[..k][1..] == bs[1..][..k - 1];
      ScanErrorIff(bs[1..], k - 1, i + 1);
      assert forall j :: 0 < j < k ==> bs[j] == bs[1..][j - 1];
      assert (forall j :: 0 <= j < k ==> bs[j] >= 128) <==>
        bs[0] >= 128 && forall j :: 0 <= j < k - 1 ==> bs[1..][j] >= 128;
    }
  }
}
