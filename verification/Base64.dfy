/**
 Unpadded standard base64 (RFC 4648, sections 3.2, 3.5 and 4): what RawStdEncoding writes,
 and what its strict decoder accepts.
 */
module Base64 {
  datatype Option<T> = None | Some(value: T)

  type Byte = b: int | 0 <= b < 256

  type Sextet = n: int | 0 <= n < 64

  function Letter(n: Sextet): char
  {
    if n < 26 then ('A' as int + n) as char
    else if n < 52 then ('a' as int + n - 26) as char
    else if n < 62 then ('0' as int + n - 52) as char
    else if n == 62 then '+' else '/'
  }

  predicate IsLetter(c: char)
  {
    'A' <= c <= 'Z' || 'a' <= c <= 'z' || '0' <= c <= '9' || c == '+' || c == '/'
  }

  function Rank(c: char): Sextet
    requires IsLetter(c)
  {
    if 'A' <= c <= 'Z' then c as int - 'A' as int
    else if 'a' <= c <= 'z' then c as int - 'a' as int + 26
    else if '0' <= c <= '9' then c as int - '0' as int + 52
    else if c == '+' then 62 else 63
  }

  lemma RankOfLetter(n: Sextet)
    ensures IsLetter(Letter(n)) && Rank(Letter(n)) == n
  {
  }

  lemma LetterOfRank(c: char)
    requires IsLetter(c)
    ensures Letter(Rank(c)) == c
  {
  }

  predicate AllLetters(s: string)
  {
    forall i :: 0 <= i < |s| ==> IsLetter(s[i])
  }

  // --------------------------------------------------------------- bytes in groups of six bits

  /** The six-bit groups of some bytes, the last one filled up with zero bits. */
  function Spread(b: seq<Byte>): (n: seq<Sextet>)
    ensures |n| == |b| / 3 * 4 + if |b| % 3 == 0 then 0 else |b| % 3 + 1
    decreases |b|
  {
    if |b| == 0 then []
    else if |b| == 1 then [b[0] / 4, b[0] % 4 * 16]
    else if |b| == 2 then [b[0] / 4, b[0] % 4 * 16 + b[1] / 16, b[1] % 16 * 4]
    else Group(b[0], b[1], b[2]) + Spread(b[3..])
  }

  function Group(x: Byte, y: Byte, z: Byte): (n: seq<Sextet>)
    ensures |n| == 4
  {
    [x / 4, x % 4 * 16 + y / 16, y % 16 * 4 + z / 64, z % 64]
  }

  function FirstByte(p: Sextet, q: Sextet): Byte
  {
    p * 4 + q / 16
  }

  function SecondByte(q: Sextet, r: Sextet): Byte
  {
    q % 16 * 16 + r / 4
  }

  function ThirdByte(r: Sextet, t: Sextet): Byte
  {
    r % 4 * 64 + t
  }

  function Ungroup(p: Sextet, q: Sextet, r: Sextet, t: Sextet): (b: seq<Byte>)
    ensures |b| == 3
  {
    [FirstByte(p, q), SecondByte(q, r), ThirdByte(r, t)]
  }

  /** Strict: a single group left over is an error, and so are unused bits that are not zero. */
  function Gather(n: seq<Sextet>): (b: Option<seq<Byte>>)
    ensures b.Some? ==> |b.value| == |n| / 4 * 3 + if |n| % 4 == 0 then 0 else |n| % 4 - 1
    decreases |n|
  {
    if |n| == 0 then Some([])
    else if |n| == 1 then None
    else if |n| == 2 then
      if n[1] % 16 == 0 then Some([FirstByte(n[0], n[1])]) else None
    else if |n| == 3 then
      if n[2] % 4 == 0 then Some([FirstByte(n[0], n[1]), SecondByte(n[1], n[2])]) else None
    else
      match Gather(n[4..])
      case None => None
      case Some(more) => Some(Ungroup(n[0], n[1], n[2], n[3]) + more)
  }

  lemma UngroupGroup(x: Byte, y: Byte, z: Byte)
    ensures var n := Group(x, y, z); Ungroup(n[0], n[1], n[2], n[3]) == [x, y, z]
  {
  }

  lemma GroupUngroup(p: Sextet, q: Sextet, r: Sextet, t: Sextet)
    ensures var b := Ungroup(p, q, r, t); Group(b[0], b[1], b[2]) == [p, q, r, t]
  {
    var x, y, z := FirstByte(p, q), SecondByte(q, r), ThirdByte(r, t);
    assert x / 4 == p && x % 4 == q / 16;
    assert y / 16 == q % 16 && y % 16 == r / 4;
    assert z / 64 == r % 4 && z % 64 == t;
  }

  lemma {:induction false} GatherSpread(b: seq<Byte>)
    ensures Gather(Spread(b)) == Some(b)
    decreases |b|
  {
    if |b| >= 3 {
      GatherSpread(b[3..]);
      UngroupGroup(b[0], b[1], b[2]);
      assert Spread(b)[4..] == Spread(b[3..]);
      assert b == [b[0], b[1], b[2]] + b[3..];
    } else if |b| == 2 {
      assert b == [b[0], b[1]];
    } else if |b| == 1 {
      assert b == [b[0]];
    }
  }

  lemma SpreadFirst(p: Sextet, q: Sextet, r: Sextet, t: Sextet, more: seq<Byte>)
    ensures Spread(Ungroup(p, q, r, t) + more) == [p, q, r, t] + Spread(more)
  {
    GroupUngroup(p, q, r, t);
    assert (Ungroup(p, q, r, t) + more)[3..] == more;
  }

  lemma {:induction false} SpreadGather(n: seq<Sextet>)
    requires Gather(n).Some?
    ensures Spread(Gather(n).value) == n
    decreases |n|
  {
    if |n| >= 4 {
      SpreadGather(n[4..]);
      SpreadFirst(n[0], n[1], n[2], n[3], Gather(n[4..]).value);
      assert n == [n[0], n[1], n[2], n[3]] + n[4..];
    } else if |n| == 3 {
      SpreadTwo(n[0], n[1], n[2]);
      assert n == [n[0], n[1], n[2]];
    } else if |n| == 2 {
      SpreadOne(n[0], n[1]);
      assert n == [n[0], n[1]];
    }
  }

  lemma SpreadOne(p: Sextet, q: Sextet)
    requires q % 16 == 0
    ensures Spread([FirstByte(p, q)]) == [p, q]
  {
    var x := FirstByte(p, q);
    assert x / 4 == p && x % 4 == q / 16;
  }

  lemma SpreadTwo(p: Sextet, q: Sextet, r: Sextet)
    requires r % 4 == 0
    ensures Spread([FirstByte(p, q), SecondByte(q, r)]) == [p, q, r]
  {
    var x, y := FirstByte(p, q), SecondByte(q, r);
    assert x / 4 == p && x % 4 == q / 16;
    assert y / 16 == q % 16 && y % 16 == r / 4;
  }

  // ------------------------------------------------------------------------------- text

  function Letters(n: seq<Sextet>): (s: string)
    ensures |s| == |n| && forall i :: 0 <= i < |n| ==> s[i] == Letter(n[i])
  {
    seq(|n|, i requires 0 <= i < |n| => Letter(n[i]))
  }

  function Ranks(s: string): (n: seq<Sextet>)
    requires AllLetters(s)
    ensures |n| == |s| && forall i :: 0 <= i < |s| ==> n[i] == Rank(s[i])
  {
    seq(|s|, i requires 0 <= i < |s| => Rank(s[i]))
  }

  function Encode(b: seq<Byte>): (s: string)
    ensures |s| == |b| / 3 * 4 + if |b| % 3 == 0 then 0 else |b| % 3 + 1
  {
    Letters(Spread(b))
  }

  function Decode(s: string): (b: Option<seq<Byte>>)
    ensures b.Some? ==> |b.value| == |s| / 4 * 3 + if |s| % 4 == 0 then 0 else |s| % 4 - 1
  {
    if AllLetters(s) then Gather(Ranks(s)) else None
  }

  lemma DecodeEncode(b: seq<Byte>)
    ensures AllLetters(Encode(b)) && Decode(Encode(b)) == Some(b)
  {
    var n := Spread(b);
    forall i | 0 <= i < |n|
      ensures IsLetter(Letters(n)[i]) && Rank(Letters(n)[i]) == n[i]
    {
      RankOfLetter(n[i]);
    }
    assert Ranks(Letters(n)) == n;
    GatherSpread(b);
  }

  /** Every accepted text is the one encoding of its bytes. */
  lemma EncodeDecode(s: string)
    requires Decode(s).Some?
    ensures Encode(Decode(s).value) == s
  {
    SpreadGather(Ranks(s));
    forall i | 0 <= i < |s|
      ensures Letters(Ranks(s))[i] == s[i]
    {
      LetterOfRank(s[i]);
    }
    assert Letters(Ranks(s)) == s;
  }
}
