/** Padded standard base64, section 4 of RFC 4648, with the tolerances of Go's decoder. */
module Base64 {
  import opened Prelude
  import opened Decimal

  type Sextet = v: int | 0 <= v < 64

  const PAD: Byte := '=' as int

  function Letter(v: Sextet): Byte {
    if v < 26 then 'A' as int + v
    else if v < 52 then 'a' as int + (v - 26)
    else if v < 62 then '0' as int + (v - 52)
    else if v == 62 then '+' as int else '/' as int
  }

  function Unletter(b: Byte): Option<Sextet> {
    if 'A' as int <= b <= 'Z' as int then Some(b - 'A' as int)
    else if 'a' as int <= b <= 'z' as int then Some(b - 'a' as int + 26)
    else if '0' as int <= b <= '9' as int then Some(b - '0' as int + 52)
    else if b == '+' as int then Some(62)
    else if b == '/' as int then Some(63)
    else None
  }

  // The four sextets of three bytes, and the three bytes of four sextets.

  function First(b0: Byte): Sextet { b0 / 4 }

  function Second(b0: Byte, b1: Byte): Sextet { b0 % 4 * 16 + b1 / 16 }

  function Third(b1: Byte, b2: Byte): Sextet { b1 % 16 * 4 + b2 / 64 }

  function Fourth(b2: Byte): Sextet { b2 % 64 }

  function Byte0(v0: Sextet, v1: Sextet): Byte { v0 * 4 + v1 / 16 }

  function Byte1(v1: Sextet, v2: Sextet): Byte { v1 % 16 * 16 + v2 / 4 }

  function Byte2(v2: Sextet, v3: Sextet): Byte { v2 % 4 * 64 + v3 }

  function Encode(s: Bytes): (r: Bytes)
    ensures |r| == (|s| + 2) / 3 * 4
  {
    if s == [] then []
    else if |s| == 1 then [Letter(First(s[0])), Letter(Second(s[0], 0)), PAD, PAD]
    else if |s| == 2 then [Letter(First(s[0])), Letter(Second(s[0], s[1])), Letter(Third(s[1], 0)), PAD]
    else
      [Letter(First(s[0])), Letter(Second(s[0], s[1])), Letter(Third(s[1], s[2])), Letter(Fourth(s[2]))] + Encode(s[3..])
  }

  predicate IsNewline(b: Byte) { b == 10 || b == 13 }

  /** The decoder skips carriage returns and line feeds wherever they stand. */
  function WithoutNewlines(s: Bytes): Bytes {
    if s == [] then []
    else if IsNewline(s[0]) then WithoutNewlines(s[1..]) else [s[0]] + WithoutNewlines(s[1..])
  }

  /** Whole quanta only; padding ends the input; unused low bits are ignored. */
  function DecodeQuanta(s: Bytes): Option<Bytes> {
    if s == [] then Some([])
    else if |s| < 4 then None
    else
      match (Unletter(s[0]), Unletter(s[1]))
      case (Some(v0), Some(v1)) =>
        if s[2] == PAD then
          if s[3] == PAD && |s| == 4 then Some([Byte0(v0, v1)]) else None
        else (
          match Unletter(s[2])
          case None => None
          case Some(v2) =>
            if s[3] == PAD then
              if |s| == 4 then Some([Byte0(v0, v1), Byte1(v1, v2)]) else None
            else
              match (Unletter(s[3]), DecodeQuanta(s[4..]))
              case (Some(v3), Some(rest)) => Some([Byte0(v0, v1), Byte1(v1, v2), Byte2(v2, v3)] + rest)
              case _ => None
        )
      case _ => None
  }

  function Decode(s: Bytes): Option<Bytes> { DecodeQuanta(WithoutNewlines(s)) }

  /** The alphabet of table 1 of RFC 4648: the ends of its runs, and one character after the other within them. */
  lemma AlphabetIs(v: Sextet)
    ensures Letter(0) == 'A' as int && Letter(25) == 'Z' as int && Letter(26) == 'a' as int && Letter(51) == 'z' as int
    ensures Letter(52) == '0' as int && Letter(61) == '9' as int && Letter(62) == '+' as int && Letter(63) == '/' as int
    ensures v !in {25, 51, 61, 62, 63} ==> Letter(v + 1) == Letter(v) + 1
  {
  }

  lemma LettersRead(v: Sextet)
    ensures Unletter(Letter(v)) == Some(v) && Letter(v) != PAD && !IsNewline(Letter(v))
  {
  }

  lemma {:induction false} NoNewlines(s: Bytes)
    requires forall i :: 0 <= i < |s| ==> !IsNewline(s[i])
    ensures WithoutNewlines(s) == s
  {
    if s == [] {
    } else {
      NoNewlines(s[1..]);
    }
  }

  lemma {:induction false} EncodeHasNoNewlines(s: Bytes)
    ensures forall i :: 0 <= i < |Encode(s)| ==> !IsNewline(Encode(s)[i])
    decreases |s|
  {
    if |s| >= 3 { EncodeHasNoNewlines(s[3..]); }
  }

  /** Three bytes, cut into four sextets and put together again. */
  lemma Regroup(b0: Byte, b1: Byte, b2: Byte)
    ensures Byte0(First(b0), Second(b0, b1)) == b0
    ensures Byte1(Second(b0, b1), Third(b1, b2)) == b1
    ensures Byte2(Third(b1, b2), Fourth(b2)) == b2
  {
    assert Second(b0, b1) / 16 == b0 % 4 && Second(b0, b1) % 16 == b1 / 16;
    assert Third(b1, b2) / 4 == b1 % 16 && Third(b1, b2) % 4 == b2 / 64;
  }

  lemma FullQuantum(v0: Sextet, v1: Sextet, v2: Sextet, v3: Sextet, tail: Bytes)
    ensures DecodeQuanta([Letter(v0), Letter(v1), Letter(v2), Letter(v3)] + tail) ==
            match DecodeQuanta(tail)
            case None => None
            case Some(rest) => Some([Byte0(v0, v1), Byte1(v1, v2), Byte2(v2, v3)] + rest)
  {
    hide Letter, Unletter, First, Second, Third, Fourth, Byte0, Byte1, Byte2;
    LettersRead(v0); LettersRead(v1); LettersRead(v2); LettersRead(v3);
    var s := [Letter(v0), Letter(v1), Letter(v2), Letter(v3)] + tail;
    assert s[4..] == tail;
  }

  lemma LastQuantum(v0: Sextet, v1: Sextet, v2: Sextet)
    ensures DecodeQuanta([Letter(v0), Letter(v1), PAD, PAD]) == Some([Byte0(v0, v1)])
    ensures DecodeQuanta([Letter(v0), Letter(v1), Letter(v2), PAD]) == Some([Byte0(v0, v1), Byte1(v1, v2)])
  {
    hide Letter, Unletter, First, Second, Third, Fourth, Byte0, Byte1, Byte2;
    LettersRead(v0); LettersRead(v1); LettersRead(v2);
  }

  /** Four sextets are the 24 bits of three bytes, the highest first. */
  lemma SameBits(b0: Byte, b1: Byte, b2: Byte)
    ensures First(b0) * 0x4_0000 + Second(b0, b1) * 0x1000 + Third(b1, b2) * 0x40 + Fourth(b2) == b0 * 0x1_0000 + b1 * 0x100 + b2
  {
    assert b0 == b0 / 4 * 4 + b0 % 4 && b1 == b1 / 16 * 16 + b1 % 16 && b2 == b2 / 64 * 64 + b2 % 64;
  }

  /** As many padding characters as bytes are missing from the last three, all of them at the end. */
  lemma {:induction false} PaddingIs(s: Bytes, i: nat)
    requires i < |Encode(s)|
    ensures Encode(s)[i] == '=' as int <==>
              || (|s| % 3 == 1 && i >= |Encode(s)| - 2)
              || (|s| % 3 == 2 && i == |Encode(s)| - 1)
    decreases |s|
  {
    hide First, Second, Third, Fourth;
    if |s| >= 3 && i >= 4 { PaddingIs(s[3..], i - 4); }
  }

  /** Carriage returns and line feeds may stand anywhere. */
  lemma {:induction false} NewlinesSkipped(s: Bytes, t: Bytes)
    ensures WithoutNewlines(s + [10] + t) == WithoutNewlines(s + [13] + t) == WithoutNewlines(s + t)
    ensures Decode(s + [10] + t) == Decode(s + [13] + t) == Decode(s + t)
    decreases |s|
  {
    if s == [] {
      assert s + [10] + t == [10] + t && s + [13] + t == [13] + t && s + t == t;
      assert ([10] + t)[1..] == t && ([13] + t)[1..] == t;
    } else {
      NewlinesSkipped(s[1..], t);
      assert (s + [10] + t)[1..] == s[1..] + [10] + t;
      assert (s + [13] + t)[1..] == s[1..] + [13] + t;
      assert (s + t)[1..] == s[1..] + t;
    }
  }

  lemma {:induction false} QuantaRoundTrip(s: Bytes)
    ensures DecodeQuanta(Encode(s)) == Some(s)
    decreases |s|
  {
    hide Letter, Unletter, DecodeQuanta, First, Second, Third, Fourth, Byte0, Byte1, Byte2;
    if s == [] {
      EmptyQuanta();
    } else if |s| == 1 {
      assert s == [s[0]];
      Regroup(s[0], 0, 0);
      LastQuantum(First(s[0]), Second(s[0], 0), 0);
    } else if |s| == 2 {
      assert s == [s[0], s[1]];
      Regroup(s[0], s[1], 0);
      LastQuantum(First(s[0]), Second(s[0], s[1]), Third(s[1], 0));
    } else {
      QuantaRoundTrip(s[3..]);
      Regroup(s[0], s[1], s[2]);
      FullQuantum(First(s[0]), Second(s[0], s[1]), Third(s[1], s[2]), Fourth(s[2]), Encode(s[3..]));
      assert s == [s[0], s[1], s[2]] + s[3..];
    }
  }

  lemma EmptyQuanta()
    ensures DecodeQuanta([]) == Some([])
  {
  }

  /** Every byte sequence survives encoding and decoding. */
  lemma RoundTrip(s: Bytes)
    ensures Decode(Encode(s)) == Some(s)
  {
    EncodeHasNoNewlines(s);
    NoNewlines(Encode(s));
    QuantaRoundTrip(s);
  }

  lemma LetterOf(b: Byte)
    requires Unletter(b).Some?
    ensures Letter(Unletter(b).value) == b && b != PAD
  {
  }

  /** Four sextets, put together as three bytes and cut again. */
  lemma Ungroup(v0: Sextet, v1: Sextet, v2: Sextet, v3: Sextet)
    ensures First(Byte0(v0, v1)) == v0 && Second(Byte0(v0, v1), Byte1(v1, v2)) == v1
    ensures Third(Byte1(v1, v2), Byte2(v2, v3)) == v2 && Fourth(Byte2(v2, v3)) == v3
  {
    assert Byte0(v0, v1) / 4 == v0 && Byte0(v0, v1) % 4 == v1 / 16;
    assert Byte1(v1, v2) / 16 == v1 % 16 && Byte1(v1, v2) % 16 == v2 / 4;
    assert Byte2(v2, v3) / 64 == v2 % 4 && Byte2(v2, v3) % 64 == v3;
  }

  /** Is this the letter just before the padding, whose low bits the decoder ignores? */
  predicate BeforePad(s: Bytes, i: nat) { i + 1 < |s| && s[i] != PAD && s[i + 1] == PAD }

  lemma {:induction false} QuantaAreEncodings(s: Bytes)
    ensures DecodeQuanta(s).Some? ==>
              var e := Encode(DecodeQuanta(s).value);
              |e| == |s| && forall i :: 0 <= i < |s| && !BeforePad(s, i) ==> e[i] == s[i]
    decreases |s|
  {
    hide Letter, Unletter, First, Second, Third, Fourth, Byte0, Byte1, Byte2;
    if DecodeQuanta(s).None? || s == [] {
    } else {
      var v0, v1 := Unletter(s[0]).value, Unletter(s[1]).value;
      LetterOf(s[0]);
      LetterOf(s[1]);
      if s[2] == PAD {
        PaddedTwice(s, v0, v1);
      } else {
        LetterOf(s[2]);
        var v2 := Unletter(s[2]).value;
        if s[3] == PAD {
          PaddedOnce(s, v0, v1, v2);
        } else {
          LetterOf(s[3]);
          var v3 := Unletter(s[3]).value;
          QuantaAreEncodings(s[4..]);
          WholeQuantum(s, v0, v1, v2, v3, DecodeQuanta(s[4..]).value);
        }
      }
    }
  }

  lemma WholeQuantum(s: Bytes, v0: Sextet, v1: Sextet, v2: Sextet, v3: Sextet, tail: Bytes)
    requires |s| >= 4 && s[..4] == [Letter(v0), Letter(v1), Letter(v2), Letter(v3)]
    requires var e := Encode(tail);
             |e| == |s| - 4 && forall i :: 0 <= i < |s| - 4 && !BeforePad(s[4..], i) ==> e[i] == s[4..][i]
    ensures var e := Encode([Byte0(v0, v1), Byte1(v1, v2), Byte2(v2, v3)] + tail);
            |e| == |s| && forall i :: 0 <= i < |s| && !BeforePad(s, i) ==> e[i] == s[i]
  {
    hide Letter, First, Second, Third, Fourth, Byte0, Byte1, Byte2;
    Ungroup(v0, v1, v2, v3);
    var out := [Byte0(v0, v1), Byte1(v1, v2), Byte2(v2, v3)] + tail;
    assert out[3..] == tail;
    var e := Encode(out);
    assert e == s[..4] + Encode(tail);
    forall i | 0 <= i < |s| && !BeforePad(s, i) ensures e[i] == s[i] {
      if i >= 4 { assert !BeforePad(s[4..], i - 4); }
    }
  }

  lemma PaddedTwice(s: Bytes, v0: Sextet, v1: Sextet)
    requires |s| == 4 && s[2] == PAD && s[3] == PAD && s[0] == Letter(v0)
    ensures var e := Encode([Byte0(v0, v1)]);
            |e| == 4 && e[0] == s[0] && e[2] == PAD && e[3] == PAD
  {
    hide Letter, First, Second, Third, Fourth, Byte0, Byte1, Byte2;
    Ungroup(v0, v1, 0, 0);
  }

  lemma PaddedOnce(s: Bytes, v0: Sextet, v1: Sextet, v2: Sextet)
    requires |s| == 4 && s[3] == PAD && s[0] == Letter(v0) && s[1] == Letter(v1)
    ensures var e := Encode([Byte0(v0, v1), Byte1(v1, v2)]);
            |e| == 4 && e[0] == s[0] && e[1] == s[1] && e[3] == PAD
  {
    hide Letter, First, Second, Third, Fourth, Byte0, Byte1, Byte2;
    Ungroup(v0, v1, v2, 0);
  }

  /**
   Nothing else decodes: newlines aside, an accepted input is the encoding of its result, up to
   the ignored bits of the letter just before the padding.
   */
  lemma OnlyEncodingsDecode(s: Bytes)
    requires Decode(s).Some?
    ensures var e, t := Encode(Decode(s).value), WithoutNewlines(s);
            |e| == |t| && forall i :: 0 <= i < |t| && !BeforePad(t, i) ==> e[i] == t[i]
  {
    hide DecodeQuanta, Encode;
    QuantaAreEncodings(WithoutNewlines(s));
  }
}
