/** The byte streams of the bytecode: words, bytes and strings. */
module Streams {

  type Byte = x: nat | x < 256

  /** A word is written with its most significant byte first; higher bits are cut off. */
  function Word(n: nat): (r: seq<Byte>)
    ensures |r| == 4
  {
    [(n / 0x100_0000) % 256, (n / 0x1_0000) % 256, (n / 0x100) % 256, n % 256]
  }

  function Text(s: string): seq<Byte>
  {
    if s == [] then [] else [(s[0] as int) % 256] + Text(s[1..])
  }

  /** The length in one byte, and then the characters. */
  function Str(s: string): seq<Byte> { [|s| % 256] + Text(s) }

  /** Short enough, and made of characters of one byte. */
  predicate Writable(s: string)
  {
    |s| < 256 && forall c | c in s :: c as int < 256
  }

  // ---- Reading ---------------------------------------------------------------------------------

  /** What was read and what is left, or that the stream ended or was not understood. */
  datatype Read<+T> = Bad | Got(v: T, rest: seq<Byte>)

  function GetByte(s: seq<Byte>): Read<Byte>
  {
    if s == [] then Bad else Got(s[0], s[1..])
  }

  /** Four bytes, the most significant first. */
  function Join(a: nat, b: nat, c: nat, d: nat): nat { ((a * 256 + b) * 256 + c) * 256 + d }

  function GetWord(s: seq<Byte>): Read<nat>
  {
    if |s| < 4 then Bad else Got(Join(s[0], s[1], s[2], s[3]), s[4..])
  }

  function Chars(s: seq<Byte>): string
  {
    if s == [] then [] else [s[0] as char] + Chars(s[1..])
  }

  function GetStr(s: seq<Byte>): Read<string>
  {
    if s == [] then Bad
    else
      var len: nat := s[0];
      if |s| < 1 + len then Bad else Got(Chars(s[1..1 + len]), s[1 + len..])
  }

  lemma {:induction false} ShiftTwice(n: nat)
    ensures n / 0x1_0000 == n / 0x100 / 0x100
  {}

  lemma {:induction false} ShiftThrice(n: nat)
    ensures n / 0x100_0000 == n / 0x1_0000 / 0x100
  {}

  lemma {:induction false} JoinDigits(n: nat, a: nat, b: nat, c: nat, d: nat, p: nat, q: nat, r: nat, s: nat)
    requires n == 256 * a + s && a == 256 * b + r && b == 256 * c + q && c == 256 * d + p
    requires p < 256 && q < 256 && r < 256 && s < 256
    ensures n == 0x1_0000_0000 * d + Join(p, q, r, s) && Join(p, q, r, s) < 0x1_0000_0000
  {}

  lemma {:induction false} LowPart(n: nat, d: nat, j: nat)
    requires n == 0x1_0000_0000 * d + j && j < 0x1_0000_0000
    ensures n % 0x1_0000_0000 == j
  {}

  lemma {:induction false} JoinBack(n: nat)
    ensures Join((n / 0x100_0000) % 256, (n / 0x1_0000) % 256, (n / 0x100) % 256, n % 256) == n % 0x1_0000_0000
  {
    ShiftTwice(n);
    ShiftThrice(n);
    var a, b, c := n / 0x100, n / 0x1_0000, n / 0x100_0000;
    JoinDigits(n, a, b, c, c / 256, c % 256, b % 256, a % 256, n % 256);
    LowPart(n, c / 256, Join(c % 256, b % 256, a % 256, n % 256));
  }

  lemma {:induction false} WordBack(n: nat, rest: seq<Byte>)
    ensures GetWord(Word(n) + rest) == Got(n % 0x1_0000_0000, rest)
  {
    JoinBack(n);
    assert (Word(n) + rest)[4..] == rest;
  }

  lemma {:induction false} ByteBack(b: Byte, rest: seq<Byte>)
    ensures GetByte([b] + rest) == Got(b, rest)
  {}

  lemma {:induction false} CharsBack(s: string)
    requires forall c | c in s :: c as int < 256
    ensures |Text(s)| == |s| && Chars(Text(s)) == s
  {
    if s != [] {
      assert s[0] in s && forall c | c in s[1..] :: c in s;
      CharsBack(s[1..]);
      assert Text(s)[1..] == Text(s[1..]);
    }
  }

  lemma {:induction false} StrBack(s: string, rest: seq<Byte>)
    requires Writable(s)
    ensures GetStr(Str(s) + rest) == Got(s, rest)
  {
    CharsBack(s);
    var x := Str(s) + rest;
    assert x[0] == |s|;
    assert x[1..1 + |s|] == Text(s) && x[1 + |s|..] == rest;
  }

  // ---- In place -----------------------------------------------------------------------------------

  class StreamWriter {
    var stream: seq<Byte>

    constructor ()
      ensures stream == []
    {
      stream := [];
    }

    method WriteU8(num: nat)
      modifies this
      ensures stream == old(stream) + [num % 256]
    {
      var b: Byte := num % 256;
      stream := stream + [b];
    }

    method WriteU32(num: nat)
      modifies this
      ensures stream == old(stream) + Word(num)
    {
      ghost var before := stream;
      WriteU8(num / 0x100_0000);
      WriteU8(num / 0x1_0000);
      WriteU8(num / 0x100);
      WriteU8(num);
      assert stream == before + Word(num);
    }

    method WriteStr(s: string)
      requires |s| < 256
      modifies this
      ensures stream == old(stream) + Str(s)
    {
      WriteU8(|s|);
      ghost var before := stream;
      for i := 0 to |s|
        invariant stream + Text(s[i..]) == before + Text(s)
      {
        assert s[i..][1..] == s[i + 1..];
        stream := stream + [(s[i] as int) % 256];
      }
      assert s[|s|..] == [] && Text([]) == [];
      assert stream == before + Text(s) == old(stream) + Str(s);
    }
  }

  class StreamReader {
    const stream: seq<Byte>
    var pos: nat

    constructor (media: seq<Byte>)
      ensures stream == media && pos == 0
    {
      stream := media;
      pos := 0;
    }

    ghost predicate Valid()
      reads this
    {
      pos <= |stream|
    }

    /** What has not been read yet. */
    ghost function Rest(): seq<Byte>
      requires Valid()
      reads this
    {
      stream[pos..]
    }

    method ReadU8() returns (b: Byte)
      requires Valid() && pos < |stream|
      modifies this
      ensures Valid() && pos == old(pos) + 1 && GetByte(old(Rest())) == Got(b, Rest())
    {
      b := stream[pos];
      pos := pos + 1;
    }

    method ReadU32() returns (n: nat)
      requires Valid() && GetWord(Rest()).Got?
      modifies this
      ensures Valid() && GetWord(old(Rest())) == Got(n, Rest())
    {
      ghost var s := stream[pos..];
      assert stream[pos + 4..] == s[4..];
      n := 0;
      var a := ReadU8();
      var b := ReadU8();
      var c := ReadU8();
      var d := ReadU8();
      n := Join(a, b, c, d);
    }

    method ReadStr() returns (res: string)
      requires Valid() && GetStr(Rest()).Got?
      modifies this
      ensures Valid() && GetStr(old(Rest())) == Got(res, Rest())
    {
      ghost var s := stream[pos..];
      var first := ReadU8();
      var len: nat := first;
      res := [];
      for i := 0 to len
        invariant Valid() && pos == old(pos) + 1 + i
        invariant res + Chars(s[1 + i..1 + len]) == Chars(s[1..1 + len])
      {
        assert s[1 + i..1 + len][1..] == s[1 + (i + 1)..1 + len];
        assert s[1 + i..1 + len][0] == stream[pos];
        res := res + [stream[pos] as char];
        pos := pos + 1;
      }
      assert s[1 + len..1 + len] == [] && Chars([]) == [] && stream[pos..] == s[1 + len..];
      assert res + [] == res && res == Chars(s[1..1 + len]);
      assert s == old(Rest()) && s[0] == len && |s| >= 1 + len;
      assert GetStr(s) == Got(Chars(s[1..1 + len]), s[1 + len..]);
      assert Rest() == s[1 + len..];
    }
  }
}
