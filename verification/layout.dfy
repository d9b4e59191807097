/**
 The layout of a log record (struct _stritem_data and the ITEM_* macros of memcached.h).
 A record is a header of `HEADER` bytes, then, when it carries ITEM_CAS, eight bytes of
 CAS id, then the null-terminated key, the suffix " flags length\r\n" and the value.
 */
module Layout {
  import opened Common

  type U8 = n: int | 0 <= n < 256

  type Length = n: int | 0 <= n < 0x8000_0000

  /** it_data_flags: the ITEM_* bits that occur in the log. */
  datatype Flags = Flags(cas: bool, stored: bool, cycle: bool, dirty: bool, corrupted: bool, deleted: bool)

  /** The fields of struct _stritem_data. */
  datatype Header = Header(exptime: nat, nbytes: Length, nsuffix: U8, flags: Flags, nkey: U8)

  /**
   A cell of memory: a byte, or the header or the 64-bit CAS id whose first byte lies there.
   The other bytes of a header or an id are not written by themselves and stay zero.
   */
  datatype Cell = Byte(n: U8) | Head(h: Header) | Cas(id: nat)

  const ZERO: Cell := Byte(0)
  const NO_FLAGS: Flags := Flags(false, false, false, false, false, false)
  const NO_HEADER: Header := Header(0, 0, 0, NO_FLAGS, 0)

  /** A client key: the protocol refuses the empty key and keys over 250 bytes. */
  type Key = k: seq<Cell> | 1 <= |k| <= 250 witness [ZERO]

  const HEADER: nat := 16
  const CAS_SIZE: nat := 8
  const MIN_ITEM: nat := 35
  const TWO_32: nat := 0x1_0000_0000

  // ---------------------------------------------------------------- the ITEM_* macros

  /** The item_data structure at `p`; zeroed memory reads as a header of zeros. */
  function Item(log: seq<Cell>, p: nat): Header
    requires p < |log|
  {
    if log[p].Head? then log[p].h else NO_HEADER
  }

  /** ITEM_key: the key follows the CAS id, if the record has one. */
  function KeyPos(log: seq<Cell>, p: nat): nat
    requires p < |log|
  {
    p + HEADER + (if Item(log, p).flags.cas then CAS_SIZE else 0)
  }

  /** ITEM_suffix. */
  function SuffixPos(log: seq<Cell>, p: nat): nat
    requires p < |log|
  {
    KeyPos(log, p) + Item(log, p).nkey + 1
  }

  /** ITEM_data. */
  function DataPos(log: seq<Cell>, p: nat): nat
    requires p < |log|
  {
    SuffixPos(log, p) + Item(log, p).nsuffix
  }

  /** ITEM_ntotal. */
  function NTotal(h: Header): (n: nat)
    ensures HEADER < n < TWO_32
  {
    HEADER + h.nkey + 1 + h.nsuffix + h.nbytes
    + (if h.flags.cas || h.flags.deleted || h.flags.corrupted || h.flags.cycle then CAS_SIZE else 0)
  }

  /** The cells [p, p + n) of `log`, if they all lie in it. */
  function Slice(log: seq<Cell>, p: nat, n: nat): seq<Cell>
  {
    if p + n <= |log| then log[p..p + n] else []
  }

  function KeyAt(log: seq<Cell>, p: nat): seq<Cell>
    requires p < |log|
  {
    Slice(log, KeyPos(log, p), Item(log, p).nkey)
  }

  // ---------------------------------------------------------------- writing

  /** memcpy of `bytes` to position `p`. */
  function Write(log: seq<Cell>, p: nat, bytes: seq<Cell>): (r: seq<Cell>)
    requires p + |bytes| <= |log|
    ensures |r| == |log|
    ensures forall i :: 0 <= i < |log| ==> r[i] == if p <= i < p + |bytes| then bytes[i - p] else log[i]
  {
    seq(|log|, i requires 0 <= i < |log| => if p <= i < p + |bytes| then bytes[i - p] else log[i])
  }

  /** memset of [p, p + n) to zero. */
  function Zero(log: seq<Cell>, p: nat, n: nat): (r: seq<Cell>)
    requires p + n <= |log|
    ensures |r| == |log|
    ensures forall i :: 0 <= i < |log| ==> r[i] == if p <= i < p + n then ZERO else log[i]
  {
    seq(|log|, i requires 0 <= i < |log| => if p <= i < p + n then ZERO else log[i])
  }

  // ---------------------------------------------------------------- item_make_header

  /** What "%u" prints. */
  function Decimal(n: nat): (r: seq<Cell>)
    ensures |r| == |Digits(n)|
  {
    var d := Digits(n);
    seq(|d|, i requires 0 <= i < |d| => Byte(48 + d[i]))
  }

  /** What "%d" prints. */
  function SignedDecimal(n: int): (r: seq<Cell>)
    ensures 1 <= |r|
  {
    if n < 0 then [Byte(45)] + Decimal(-n) else Decimal(n)
  }

  /** The suffix of item_make_header: " %u %d\r\n". */
  function Suffix(cflags: nat, nbytes: nat): (r: seq<Cell>)
    ensures 6 <= |r|
  {
    [Byte(32)] + Decimal(cflags) + [Byte(32)] + SignedDecimal(nbytes - 2) + [Byte(13), Byte(10)]
  }

  /** item_make_header's 40-byte buffer never truncates, so `nsuffix` is exact. */
  lemma SuffixLength(cflags: nat, nbytes: nat)
    requires cflags < TWO_32 && nbytes < 0x8000_0000
    ensures |Suffix(cflags, nbytes)| <= 24
  {
    assert Pow10(10) == 10_000_000_000;
    DigitsLength(cflags, 10);
    if nbytes >= 2 {
      DigitsLength(nbytes - 2, 10);
    } else {
      DigitsLength(2 - nbytes, 1);
    }
  }
}
