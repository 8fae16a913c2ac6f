/** The property streams that items and conditions are saved in (src/fileloader.h). */
module PropStreams {
  import opened Basics

  /** How many values a word of some bytes has. */
  function Bound(width: nat): (b: nat)
    ensures b >= 1
  {
    if width == 0 then 1 else 0x100 * Bound(width - 1)
  }

  /** A word, lowest byte first. */
  function Word(n: nat, width: nat): (s: seq<byte>)
    ensures |s| == width
  {
    if width == 0 then [] else [(n % 0x100) as byte] + Word(n / 0x100, width - 1)
  }

  function Number(s: seq<byte>): (n: nat)
    ensures n < Bound(|s|)
  {
    if s == [] then 0 else s[0] as nat + 0x100 * Number(s[1..])
  }

  lemma {:induction false} NumberOfWord(n: nat, width: nat)
    requires n < Bound(width)
    ensures Number(Word(n, width)) == n
  {
    if width > 0 {
      NumberOfWord(n / 0x100, width - 1);
      assert Word(n, width)[1..] == Word(n / 0x100, width - 1);
    }
  }

  lemma {:induction false} WordOfNumber(s: seq<byte>)
    ensures Word(Number(s), |s|) == s
  {
    if s != [] {
      var n := Number(s[1..]);
      WordOfNumber(s[1..]);
      assert (s[0] as nat + 0x100 * n) % 0x100 == s[0] as nat && (s[0] as nat + 0x100 * n) / 0x100 == n;
      assert s == [s[0]] + s[1..];
    }
  }

  /** Casts between signed and unsigned words: two's complement. */
  function Unsigned(n: int, width: nat): (u: nat)
    ensures u < Bound(width)
  {
    n % Bound(width)
  }

  function Signed(u: nat, width: nat): int {
    if 2 * u >= Bound(width) then u - Bound(width) else u
  }

  predicate FitsSigned(n: int, width: nat) {
    0 - Bound(width) <= 2 * n < Bound(width)
  }

  lemma SignedUnsigned(n: int, width: nat)
    requires FitsSigned(n, width)
    ensures Signed(Unsigned(n, width), width) == n
  {
    if n >= 0 {
      SmallMod(n, Bound(width));
    } else {
      WrapMod(n, Bound(width));
    }
  }

  lemma SmallMod(n: nat, b: nat)
    requires n < b
    ensures n % b == n
  {
  }

  lemma NotNegative(q: int, b: int)
    requires q >= 0 && b >= 0
    ensures q * b >= 0
  {
  }

  lemma WrapMod(n: int, b: int)
    requires -b <= n < 0
    ensures n % b == n + b
  {
    var q := n / b;
    assert n == q * b + n % b;
    if q >= 0 {
      NotNegative(q, b);
    } else if q < -1 {
      NotNegative(-q - 2, b);
    }
  }

  /** What a read gives: a word and what is left, or nothing when the stream is too short. */
  function TakeWord(s: seq<byte>, width: nat): (r: Option<(nat, seq<byte>)>)
    ensures r.Some? <==> width <= |s|
    ensures r.Some? ==> r.value.0 < Bound(width) && s == Word(r.value.0, width) + r.value.1
  {
    if |s| < width then None
    else
      WordOfNumber(s[..width]);
      Some((Number(s[..width]), s[width..]))
  }

  lemma TakeWordBack(n: nat, width: nat, rest: seq<byte>)
    requires n < Bound(width)
    ensures TakeWord(Word(n, width) + rest, width) == Some((n, rest))
  {
    NumberOfWord(n, width);
    assert (Word(n, width) + rest)[..width] == Word(n, width);
  }

  const MAX_STRING := 0xFFFF

  /** A string with its length; one that is too long is written as an empty one. */
  function Text(str: seq<byte>): seq<byte> {
    if |str| > MAX_STRING then Word(0, 2) else Word(|str|, 2) + str
  }

  function TakeText(s: seq<byte>): (r: Option<(seq<byte>, seq<byte>)>)
    ensures r.Some? ==> |r.value.0| <= MAX_STRING && s == Text(r.value.0) + r.value.1
  {
    match TakeWord(s, 2)
    case None => None
    case Some((n, rest)) =>
      if |rest| < n then None
      else
        assert Bound(1) == 0x100 && Bound(2) == 0x10000;
        Some((rest[..n], rest[n..]))
  }

  /** What a string is once it has been written. */
  function Kept(str: seq<byte>): seq<byte> {
    if |str| > MAX_STRING then [] else str
  }

  lemma TakeTextBack(str: seq<byte>, rest: seq<byte>)
    ensures TakeText(Text(str) + rest) == Some((Kept(str), rest))
  {
    assert Bound(1) == 0x100 && Bound(2) == 0x10000;
    var kept := Kept(str);
    assert Text(str) + rest == Word(|kept|, 2) + (kept + rest);
    TakeWordBack(|kept|, 2, kept + rest);
  }

  class PropStream {
    const data: seq<byte>
    var p: nat

    ghost predicate Valid()
      reads this
    {
      p <= |data|
    }

    /** What is still to be read. */
    function Rest(): seq<byte>
      requires Valid()
      reads this
    {
      data[p..]
    }

    constructor (data: seq<byte>)
      ensures Valid() && Rest() == data
    {
      this.data := data;
      p := 0;
    }

    /** Reads a word, or leaves the stream as it is. */
    method Read(width: nat) returns (ok: bool, n: nat)
      requires Valid()
      modifies this
      ensures Valid()
      ensures ok <==> TakeWord(old(Rest()), width).Some?
      ensures ok ==> TakeWord(old(Rest()), width) == Some((n, Rest()))
      ensures !ok ==> Rest() == old(Rest())
    {
      ok := width <= |data| - p;
      n := 0;
      if ok {
        assert Rest()[..width] == data[p..p + width];
        n := Number(data[p..p + width]);
        p := p + width;
      }
    }

    /** Reads some bytes as they are, or leaves the stream as it is. */
    method ReadBytes(size: nat) returns (ok: bool, bytes: seq<byte>)
      requires Valid()
      modifies this
      ensures Valid()
      ensures ok <==> size <= |old(Rest())|
      ensures ok ==> bytes == old(Rest())[..size] && Rest() == old(Rest())[size..]
      ensures !ok ==> Rest() == old(Rest())
    {
      ok, bytes := size <= |data| - p, [];
      if ok {
        assert Rest()[..size] == data[p..p + size] && Rest()[size..] == data[p + size..];
        bytes := data[p..p + size];
        p := p + size;
      }
    }

    method ReadString() returns (ok: bool, str: seq<byte>)
      requires Valid()
      modifies this
      ensures Valid() && |Rest()| <= |old(Rest())|
      ensures ok <==> TakeText(old(Rest())).Some?
      ensures ok ==> TakeText(old(Rest())) == Some((str, Rest()))
    {
      str := [];
      var length;
      ok, length := Read(2);
      if ok {
        ok := length <= |data| - p;
        if ok {
          assert Rest()[..length] == data[p..p + length] && Rest()[length..] == data[p + length..];
          str := data[p..p + length];
          p := p + length;
        }
      }
    }
  }

  class PropWriteStream {
    var buffer: seq<byte>

    constructor ()
      ensures buffer == []
    {
      buffer := [];
    }

    method Write(n: nat, width: nat)
      modifies this
      ensures buffer == old(buffer) + Word(n, width)
    {
      buffer := buffer + Word(n, width);
    }

    method WriteString(str: seq<byte>)
      modifies this
      ensures buffer == old(buffer) + Text(str)
    {
      if |str| > MAX_STRING {
        Write(0, 2);
      } else {
        Write(|str|, 2);
        ConcatAssociative(old(buffer), Word(|str|, 2), str);
        buffer := buffer + str;
      }
    }
  }
}
