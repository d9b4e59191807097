/**
 The Jenkins hash on a little-endian machine (jenkins_hash.c). The function has three ways to
 read a key, chosen by the alignment of its address; all three must give the value of one
 byte-wise definition, or a key would hash differently in a network buffer and in the log.
 */
module Jenkins {
  import opened JenkinsMix

  type Byte = x: int | 0 <= x < 256

  // ------------------------------------------------- the byte-wise definition

  /** 256^k for the four bytes of a word. */
  function Scale(k: nat): (r: nat)
    ensures r <= 0x100_0000
  {
    match k
    case 0 => 1
    case 1 => 0x100
    case 2 => 0x1_0000
    case _ => 0x100_0000
  }

  /** `x += s[0]; x += s[1] << 8; x += s[2] << 16; x += s[3] << 24`, for as many of the four as there are. */
  function AddBytes(x: Word, s: seq<Byte>): Word {
    if s == [] then x
    else Add(AddBytes(x, s[..|s| - 1]), s[|s| - 1] * Scale(|s| - 1))
  }

  /** The (at most four) bytes of a key from byte i on. */
  function Piece(key: seq<Byte>, i: nat): seq<Byte> {
    var lo := if i < |key| then i else |key|;
    var hi := if i + 4 < |key| then i + 4 else |key|;
    key[lo..hi]
  }

  /** Twelve bytes of key, or the rest of it, added to the state. */
  function Absorb(t: Abc, key: seq<Byte>): Abc {
    Abc(AddBytes(t.a, Piece(key, 0)), AddBytes(t.b, Piece(key, 4)), AddBytes(t.c, Piece(key, 8)))
  }

  /**
   All blocks but the last are followed by `mix`, the last by `fin`; how the key is read does
   not depend on what they do.
   */
  function Rounds(mix: Abc -> Abc, fin: Abc -> Word, t: Abc, key: seq<Byte>): Word
    decreases |key|
  {
    if |key| > 12 then Rounds(mix, fin, mix(Absorb(t, key)), key[12..])
    else if key == [] then t.c
    else fin(Absorb(t, key))
  }

  /** 0xdeadbeef + length in all three words. */
  function Init(length: nat): Abc {
    var x := (0xdeadbeef + length) % M;
    Abc(x, x, x)
  }

  function FinalC(t: Abc): Word {
    Final(t).c
  }

  function Hash(key: seq<Byte>): Word {
    Rounds(Mix, FinalC, Init(|key|), key)
  }

  // ------------------------------------------------- words of memory

  /** Four bytes as a little-endian word. */
  function Le(b0: Byte, b1: Byte, b2: Byte, b3: Byte): Word {
    b0 + 0x100 * b1 + 0x1_0000 * b2 + 0x100_0000 * b3
  }

  function Load16(mem: seq<Byte>, i: nat): Word
    requires i + 2 <= |mem|
  {
    mem[i] as int + 0x100 * mem[i + 1] as int
  }

  function Load32(mem: seq<Byte>, i: nat): Word
    requires i + 4 <= |mem|
  {
    Le(mem[i], mem[i + 1], mem[i + 2], mem[i + 3])
  }

  lemma AddAdd(x: Word, y: Word, z: Word)
    requires y + z < M
    ensures Add(Add(x, y), z) == Add(x, y + z)
  {
  }

  /** The value of at most four bytes. */
  function Value(s: seq<Byte>): (r: nat)
    ensures |s| <= 4 ==> r < M
    ensures |s| <= 3 ==> r < 0x100_0000
    ensures |s| <= 2 ==> r < 0x1_0000
    ensures |s| <= 1 ==> r < 0x100
  {
    if s == [] then 0 else Value(s[..|s| - 1]) + s[|s| - 1] * Scale(|s| - 1)
  }

  /** Adding the bytes one by one adds their value. */
  lemma {:induction false} AddBytesValue(x: Word, s: seq<Byte>)
    requires |s| <= 4
    ensures AddBytes(x, s) == Add(x, Value(s))
  {
    if s != [] {
      AddBytesValue(x, s[..|s| - 1]);
      AddAdd(x, Value(s[..|s| - 1]), s[|s| - 1] * Scale(|s| - 1));
    }
  }

  lemma ValueIs(mem: seq<Byte>, at: nat, n: nat)
    requires at + n <= |mem| && n <= 4
    ensures n == 0 ==> Value(mem[at..at + n]) == 0
    ensures n == 1 ==> Value(mem[at..at + n]) == mem[at]
    ensures n == 2 ==> Value(mem[at..at + n]) == Le(mem[at], mem[at + 1], 0, 0)
    ensures n == 3 ==> Value(mem[at..at + n]) == Le(mem[at], mem[at + 1], mem[at + 2], 0)
    ensures n == 4 ==> Value(mem[at..at + n]) == Le(mem[at], mem[at + 1], mem[at + 2], mem[at + 3])
  {
    if n > 0 {
      ValueIs(mem, at, n - 1);
      assert mem[at..at + n][..n - 1] == mem[at..at + n - 1];
    }
  }

  lemma LowByte(q: nat, r: Byte)
    ensures (r + 0x100 * q) % 0x100 == r
  {
  }

  lemma Mask1(b0: Byte, b1: Byte, b2: Byte, b3: Byte)
    ensures Le(b0, b1, b2, b3) % 0x100 == b0
  {
    LowByte(b1 as int + 0x100 * b2 as int + 0x1_0000 * b3 as int, b0);
  }

  lemma LowHalf(q: nat, r: nat)
    requires r < 0x1_0000
    ensures (r + 0x1_0000 * q) % 0x1_0000 == r
  {
  }

  lemma Mask2(b0: Byte, b1: Byte, b2: Byte, b3: Byte)
    ensures Le(b0, b1, b2, b3) % 0x1_0000 == Le(b0, b1, 0, 0)
  {
    LowHalf(b2 as int + 0x100 * b3 as int, Le(b0, b1, 0, 0));
  }

  lemma LowThree(q: nat, r: nat)
    requires r < 0x100_0000
    ensures (r + 0x100_0000 * q) % 0x100_0000 == r
  {
  }

  lemma Mask3(b0: Byte, b1: Byte, b2: Byte, b3: Byte)
    ensures Le(b0, b1, b2, b3) % 0x100_0000 == Le(b0, b1, b2, 0)
  {
    LowThree(b3, Le(b0, b1, b2, 0));
  }

  // ------------------------------------------------- one word of the key, read in three ways

  /** `w & 0xff`, `w & 0xffff`, `w & 0xffffff` and `w`. */
  function Masked(w: Word, n: nat): Word {
    match n
    case 1 => w % 0x100
    case 2 => w % 0x1_0000
    case 3 => w % 0x100_0000
    case _ => w
  }

  lemma MaskedIs(x: Word, mem: seq<Byte>, at: nat, n: nat)
    requires 1 <= n <= 4 && at + 4 <= |mem|
    ensures Add(x, Masked(Load32(mem, at), n)) == AddBytes(x, mem[at..at + n])
  {
    var b0, b1, b2, b3 := mem[at], mem[at + 1], mem[at + 2], mem[at + 3];
    AddBytesValue(x, mem[at..at + n]);
    ValueIs(mem, at, n);
    match n
    case 1 => Mask1(b0, b1, b2, b3);
    case 2 => Mask2(b0, b1, b2, b3);
    case 3 => Mask3(b0, b1, b2, b3);
    case 4 =>
  }

  /** An aligned 32-bit load, masked to the key's bytes. The word may reach past the key, not past the memory. */
  method AddWord32(x: Word, mem: seq<Byte>, at: nat, n: nat) returns (y: Word)
    requires n <= 4 && at + n <= |mem| && (n > 0 ==> at + 4 <= |mem|)
    ensures y == AddBytes(x, mem[at..at + n])
  {
    y := x;
    if n > 0 {
      MaskedIs(x, mem, at, n);
      y := Add(x, Masked(Load32(mem, at), n));
    }
  }

  /** Aligned 16-bit loads; an odd third byte is added first. */
  method AddWord16(x: Word, mem: seq<Byte>, at: nat, n: nat) returns (y: Word)
    requires n <= 4 && at + n <= |mem|
    ensures y == AddBytes(x, mem[at..at + n])
  {
    AddBytesValue(x, mem[at..at + n]);
    ValueIs(mem, at, n);
    y := x;
    if n == 4 {
      y := Add(y, Load16(mem, at) + 0x1_0000 * Load16(mem, at + 2));
    } else if n == 3 {
      AddAdd(x, 0x1_0000 * mem[at + 2] as int, Load16(mem, at));
      y := Add(y, 0x1_0000 * mem[at + 2] as int);
      y := Add(y, Load16(mem, at));
    } else if n == 2 {
      y := Add(y, Load16(mem, at));
    } else if n == 1 {
      y := Add(y, mem[at]);
    }
  }

  /** Byte loads, the highest first, each case falling through to the next. */
  method AddWord8(x: Word, mem: seq<Byte>, at: nat, n: nat) returns (y: Word)
    requires n <= 4 && at + n <= |mem|
    ensures y == AddBytes(x, mem[at..at + n])
  {
    AddBytesValue(x, mem[at..at + n]);
    ValueIs(mem, at, n);
    ghost var sum := 0;
    y := x;
    if n >= 4 {
      y, sum := AddOne(x, y, sum, 0x100_0000 * mem[at + 3] as int);
    }
    if n >= 3 {
      y, sum := AddOne(x, y, sum, 0x1_0000 * mem[at + 2] as int);
    }
    if n >= 2 {
      y, sum := AddOne(x, y, sum, 0x100 * mem[at + 1] as int);
    }
    if n >= 1 {
      y, sum := AddOne(x, y, sum, mem[at]);
    }
  }

  method AddOne(ghost x: Word, y: Word, ghost sum: Word, v: Word) returns (y': Word, ghost sum': Word)
    requires y == Add(x, sum) && sum + v < M
    ensures y' == Add(y, v) == Add(x, sum') && sum' == sum + v
  {
    AddAdd(x, sum, v);
    y', sum' := Add(y, v), sum + v;
  }

  // ------------------------------------------------- the three paths

  /** Where the bytes from i on start in a block of `len` bytes, and how many of the next four there are. */
  function From(len: nat, i: nat): nat {
    if i < len then i else len
  }

  function Count(len: nat, i: nat): nat {
    if i + 4 <= len then 4 else if i < len then len - i else 0
  }

  lemma SliceOfSlice<T>(s: seq<T>, a: nat, b: nat, lo: nat, hi: nat)
    requires a <= b <= |s| && lo <= hi <= b - a
    ensures s[a..b][lo..hi] == s[a + lo..a + hi]
  {
    forall k | 0 <= k < hi - lo
      ensures s[a..b][lo..hi][k] == s[a + lo..a + hi][k]
    {
      assert s[a..b][lo..hi][k] == s[a..b][lo + k] == s[a + lo + k];
    }
  }

  lemma PieceOf(mem: seq<Byte>, at: nat, len: nat, i: nat)
    requires at + len <= |mem|
    ensures at + From(len, i) + Count(len, i) <= |mem|
    ensures Piece(mem[at..at + len], i) == mem[at + From(len, i)..at + From(len, i) + Count(len, i)]
  {
    var lo := From(len, i);
    var hi := lo + Count(len, i);
    assert Piece(mem[at..at + len], i) == mem[at..at + len][lo..hi];
    SliceOfSlice(mem, at, at + len, lo, hi);
  }

  lemma RoundsStep(mix: Abc -> Abc, fin: Abc -> Word, t: Abc, mem: seq<Byte>, at: nat, end: nat)
    requires at + 12 < end <= |mem|
    ensures Rounds(mix, fin, t, mem[at..end]) == Rounds(mix, fin, mix(Absorb(t, mem[at..end])), mem[at + 12..end])
  {
    assert mem[at..end][12..] == mem[at + 12..end];
  }

  /** A block, or the rest of the key, by aligned words. */
  method Block32(t: Abc, mem: seq<Byte>, at: nat, len: nat) returns (u: Abc)
    requires at % 4 == 0 && at + len <= |mem| && |mem| % 4 == 0
    ensures u == Absorb(t, mem[at..at + len])
  {
    PieceOf(mem, at, len, 0);
    PieceOf(mem, at, len, 4);
    PieceOf(mem, at, len, 8);
    var a := AddWord32(t.a, mem, at + From(len, 0), Count(len, 0));
    var b := AddWord32(t.b, mem, at + From(len, 4), Count(len, 4));
    var c := AddWord32(t.c, mem, at + From(len, 8), Count(len, 8));
    u := Abc(a, b, c);
  }

  method Block16(t: Abc, mem: seq<Byte>, at: nat, len: nat) returns (u: Abc)
    requires at + len <= |mem|
    ensures u == Absorb(t, mem[at..at + len])
  {
    PieceOf(mem, at, len, 0);
    PieceOf(mem, at, len, 4);
    PieceOf(mem, at, len, 8);
    var a := AddWord16(t.a, mem, at + From(len, 0), Count(len, 0));
    var b := AddWord16(t.b, mem, at + From(len, 4), Count(len, 4));
    var c := AddWord16(t.c, mem, at + From(len, 8), Count(len, 8));
    u := Abc(a, b, c);
  }

  method Block8(t: Abc, mem: seq<Byte>, at: nat, len: nat) returns (u: Abc)
    requires at + len <= |mem|
    ensures u == Absorb(t, mem[at..at + len])
  {
    PieceOf(mem, at, len, 0);
    PieceOf(mem, at, len, 4);
    PieceOf(mem, at, len, 8);
    var a := AddWord8(t.a, mem, at + From(len, 0), Count(len, 0));
    var b := AddWord8(t.b, mem, at + From(len, 4), Count(len, 4));
    var c := AddWord8(t.c, mem, at + From(len, 8), Count(len, 8));
    u := Abc(a, b, c);
  }

  /** Which of the three paths reads the key. */
  datatype Path = Words | Halves | Single

  method Block(path: Path, t: Abc, mem: seq<Byte>, at: nat, len: nat) returns (u: Abc)
    requires at + len <= |mem| && |mem| % 4 == 0 && (path == Words ==> at % 4 == 0)
    ensures u == Absorb(t, mem[at..at + len])
  {
    match path
    case Words => u := Block32(t, mem, at, len);
    case Halves => u := Block16(t, mem, at, len);
    case Single => u := Block8(t, mem, at, len);
  }

  /** The rest of the key; an empty rest is not mixed. */
  method LastBlock(path: Path, mix: Abc -> Abc, fin: Abc -> Word, t: Abc, mem: seq<Byte>, at: nat, len: nat)
    returns (h: Word)
    requires at + len <= |mem| && |mem| % 4 == 0 && (path == Words ==> at % 4 == 0) && len <= 12
    ensures h == Rounds(mix, fin, t, mem[at..at + len])
  {
    if len == 0 {
      return t.c;
    }
    var u := Block(path, t, mem, at, len);
    h := fin(u);
  }

  lemma StaysAligned(at: nat)
    requires at % 4 == 0
    ensures (at + 12) % 4 == 0
  {
  }

  /** One turn of the loop. */
  method FullBlock(path: Path, mix: Abc -> Abc, ghost fin: Abc -> Word, t: Abc, mem: seq<Byte>, at: nat, end: nat)
    returns (u: Abc)
    requires at + 12 < end <= |mem| && |mem| % 4 == 0 && (path == Words ==> at % 4 == 0)
    ensures Rounds(mix, fin, u, mem[at + 12..end]) == Rounds(mix, fin, t, mem[at..end])
    ensures path == Words ==> (at + 12) % 4 == 0
  {
    RoundsStep(mix, fin, t, mem, at, end);
    var v := Block(path, t, mem, at, end - at);
    assert v == Absorb(t, mem[at..end]);
    u := mix(v);
    if path == Words {
      StaysAligned(at);
    }
  }

  /** The loop and the last block, as each of the three paths has them. */
  method HashBy(path: Path, mix: Abc -> Abc, fin: Abc -> Word, start: Abc, mem: seq<Byte>, key: nat, end: nat)
    returns (h: Word)
    requires key <= end <= |mem| && |mem| % 4 == 0 && (path == Words ==> key % 4 == 0)
    ensures h == Rounds(mix, fin, start, mem[key..end])
  {
    var t, at := start, key;
    ghost var goal := Rounds(mix, fin, start, mem[key..end]);
    while end - at > 12
      invariant 0 <= at <= end && (path == Words ==> at % 4 == 0)
      invariant Rounds(mix, fin, t, mem[at..end]) == goal
    {
      t := FullBlock(path, mix, fin, t, mem, at, end);
      at := at + 12;
    }
    h := LastBlock(path, mix, fin, t, mem, at, end - at);
  }

  /**
   jenkins_hash of the `length` bytes at address `key`: whatever the alignment of the address,
   and whatever the bytes around the key, the value is that of the byte-wise definition.
   */
  method JenkinsHash(mem: seq<Byte>, key: nat, length: nat) returns (h: Word)
    requires key + length <= |mem| && |mem| % 4 == 0
    ensures h == Hash(mem[key..key + length])
  {
    var path := if key % 4 == 0 then Words else if key % 2 == 0 then Halves else Single;
    h := HashBy(path, Mix, FinalC, Init(length), mem, key, key + length);
  }
}
