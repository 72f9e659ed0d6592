/**
 The Markdown escaping of pkg/templates/helpers.go. A replacer lists pairs of an old
 character and its replacement, and rewrites the text in one pass.
 */
module MarkdownEscape {
  import opened Prelude

  const BACKSLASH: char := '\\'

  /** The characters escaped by each function, in the order of its pairs. */
  const MARKDOWN: string := "_*[]()~`>#+-=|{}.!"
  const MARKDOWN_V2: string := "\\_*[]()~`>#+-=|{}.!"
  const CODE: string := "\\`"
  const LINK: string := "\\)"

  type Pairs = seq<(char, string)>

  /** Each special is replaced by itself behind a backslash. */
  function Escapes(specials: string): (pairs: Pairs)
    ensures |pairs| == |specials|
  {
    seq(|specials|, i requires 0 <= i < |specials| => (specials[i], [BACKSLASH, specials[i]]))
  }

  /** The replacement of the first pair that matches. */
  function Lookup(pairs: Pairs, c: char): string {
    if pairs == [] then [c] else if pairs[0].0 == c then pairs[0].1 else Lookup(pairs[1..], c)
  }

  function Replace(pairs: Pairs, text: string): string {
    if text == "" then "" else Lookup(pairs, text[0]) + Replace(pairs, text[1..])
  }

  function EscapeMarkdown(text: string): string { Replace(Escapes(MARKDOWN), text) }

  function EscapeMarkdownV2(text: string): string { Replace(Escapes(MARKDOWN_V2), text) }

  function EscapeMarkdownV2Code(code: string): string { Replace(Escapes(CODE), code) }

  function EscapeMarkdownV2Link(url: string): string { Replace(Escapes(LINK), url) }

  /** What becomes of one character. */
  function Escaped(specials: string, c: char): string { if c in specials then [BACKSLASH, c] else [c] }

  lemma {:induction false} LookupEscape(specials: string, c: char)
    ensures Lookup(Escapes(specials), c) == Escaped(specials, c)
  {
    if specials == "" {
    } else {
      LookupEscape(specials[1..], c);
      assert Escapes(specials)[1..] == Escapes(specials[1..]);
    }
  }

  // ----- Which characters are escaped -----

  /**
   The four functions work character by character, and these are the characters that each puts behind a
   backslash.
   */
  lemma SpecialsAre(s: string, t: string, c: char)
    ensures EscapeMarkdown(s + t) == EscapeMarkdown(s) + EscapeMarkdown(t)
    ensures EscapeMarkdownV2(s + t) == EscapeMarkdownV2(s) + EscapeMarkdownV2(t)
    ensures EscapeMarkdownV2Code(s + t) == EscapeMarkdownV2Code(s) + EscapeMarkdownV2Code(t)
    ensures EscapeMarkdownV2Link(s + t) == EscapeMarkdownV2Link(s) + EscapeMarkdownV2Link(t)
    ensures EscapeMarkdown([c]) == if c in "_*[]()~`>#+-=|{}.!" then ['\\', c] else [c]
    ensures EscapeMarkdownV2([c]) == if c == '\\' || c in "_*[]()~`>#+-=|{}.!" then ['\\', c] else [c]
    ensures EscapeMarkdownV2Code([c]) == if c == '\\' || c == '`' then ['\\', c] else [c]
    ensures EscapeMarkdownV2Link([c]) == if c == '\\' || c == ')' then ['\\', c] else [c]
  {
    hide Escapes, Lookup;
    ReplaceConcat(Escapes(MARKDOWN), s, t);
    ReplaceConcat(Escapes(MARKDOWN_V2), s, t);
    ReplaceConcat(Escapes(CODE), s, t);
    ReplaceConcat(Escapes(LINK), s, t);
    OneCharacter(MARKDOWN, c);
    OneCharacter(MARKDOWN_V2, c);
    OneCharacter(CODE, c);
    OneCharacter(LINK, c);
    assert MARKDOWN_V2 == ['\\'] + "_*[]()~`>#+-=|{}.!";
  }

  lemma OneCharacter(specials: string, c: char)
    ensures Replace(Escapes(specials), [c]) == Escaped(specials, c)
  {
    LookupEscape(specials, c);
    Twice(Escapes(specials), [c]);
  }

  // ----- Reading escaped text -----

  /** A reader for which a backslash takes the next character literally and a bare special is an error. */
  function Read(specials: string, s: string): Option<string> {
    if s == "" then Some("")
    else if s[0] == BACKSLASH then
      if |s| < 2 then None
      else
        match Read(specials, s[2..])
        case None => None
        case Some(rest) => Some([s[1]] + rest)
    else if s[0] in specials then None
    else
      match Read(specials, s[1..])
      case None => None
      case Some(rest) => Some([s[0]] + rest)
  }

  lemma ReadOne(specials: string, c: char, rest: string)
    ensures Read(specials, [BACKSLASH, c] + rest) == match Read(specials, rest) case None => None case Some(r) => Some([c] + r)
    ensures c != BACKSLASH && c !in specials ==>
              Read(specials, [c] + rest) == match Read(specials, rest) case None => None case Some(r) => Some([c] + r)
  {
    assert ([BACKSLASH, c] + rest)[2..] == rest;
    assert ([c] + rest)[1..] == rest;
  }

  /** When the backslash is among the specials, reading the escaped text gives the text back and meets no bare special. */
  lemma {:induction false} EscapeReadsBack(specials: string, text: string)
    requires BACKSLASH in specials
    ensures Read(specials, Replace(Escapes(specials), text)) == Some(text)
    decreases |text|
  {
    hide Escapes, Lookup;
    if text == "" {
    } else {
      LookupEscape(specials, text[0]);
      EscapeReadsBack(specials, text[1..]);
      ReadOne(specials, text[0], Replace(Escapes(specials), text[1..]));
      assert [text[0]] + text[1..] == text;
    }
  }

  lemma V2ReadsBack(text: string)
    ensures Read(MARKDOWN_V2, EscapeMarkdownV2(text)) == Some(text)
    ensures Read(CODE, EscapeMarkdownV2Code(text)) == Some(text)
    ensures Read(LINK, EscapeMarkdownV2Link(text)) == Some(text)
  {
    assert MARKDOWN_V2[0] == CODE[0] == LINK[0] == BACKSLASH;
    EscapeReadsBack(MARKDOWN_V2, text);
    EscapeReadsBack(CODE, text);
    EscapeReadsBack(LINK, text);
  }

  // ----- EscapeMarkdown leaves backslashes alone -----

  lemma {:induction false} NeverLonger(specials: string, text: string)
    requires BACKSLASH !in specials
    ensures var r := Read(specials, Replace(Escapes(specials), text));
            r.Some? ==> |r.value| <= |text|
    decreases |text|
  {
    hide Escapes, Lookup, Read;
    if text == "" {
      ReadNothing(specials);
    } else {
      LookupEscape(specials, text[0]);
      var rest := Replace(Escapes(specials), text[1..]);
      NeverLonger(specials, text[1..]);
      ReadOne(specials, text[0], rest);
      if text[0] == BACKSLASH && |text| >= 2 {
        BackslashPair(specials, text);
        NeverLonger(specials, text[2..]);
      } else if text[0] == BACKSLASH {
        LoneBackslash(specials, text);
      }
    }
  }

  lemma ReadNothing(specials: string)
    ensures Read(specials, "") == Some("")
  {
  }

  lemma LoneBackslash(specials: string, text: string)
    requires text == [BACKSLASH] && BACKSLASH !in specials
    ensures Read(specials, Replace(Escapes(specials), text)) == None
  {
    LookupEscape(specials, BACKSLASH);
  }

  /** A backslash of the text swallows what follows it. */
  lemma BackslashPair(specials: string, text: string)
    requires BACKSLASH !in specials && |text| >= 2 && text[0] == BACKSLASH
    ensures var r := Read(specials, Replace(Escapes(specials), text));
            if text[1] in specials then r == None
            else r == match Read(specials, Replace(Escapes(specials), text[2..])) case None => None case Some(s) => Some([text[1]] + s)
  {
    hide Escapes, Lookup;
    LookupEscape(specials, text[0]);
    LookupEscape(specials, text[1]);
    var out, rest := Replace(Escapes(specials), text), Replace(Escapes(specials), text[2..]);
    assert text[1..][1..] == text[2..];
    var tail := Replace(Escapes(specials), text[1..]);
    assert out == [BACKSLASH] + tail;
    if text[1] in specials {
      assert tail == [BACKSLASH, text[1]] + rest;
      assert out == [BACKSLASH, BACKSLASH] + ([text[1]] + rest);
      ReadOne(specials, BACKSLASH, [text[1]] + rest);
    } else {
      assert tail == [text[1]] + rest;
      assert out == [BACKSLASH, text[1]] + rest;
      ReadOne(specials, text[1], rest);
    }
  }

  /** Without the backslash among the specials, the text reads back exactly when it contains no backslash. */
  lemma {:induction false} PlainReadsBackIff(specials: string, text: string)
    requires BACKSLASH !in specials
    ensures Read(specials, Replace(Escapes(specials), text)) == Some(text) <==> BACKSLASH !in text
    decreases |text|
  {
    hide Escapes, Lookup, Read;
    if text == "" {
      ReadNothing(specials);
    } else if text[0] != BACKSLASH {
      LookupEscape(specials, text[0]);
      PlainReadsBackIff(specials, text[1..]);
      ReadOne(specials, text[0], Replace(Escapes(specials), text[1..]));
      assert text == [text[0]] + text[1..];
    } else if |text| == 1 {
      LoneBackslash(specials, text);
    } else {
      BackslashPair(specials, text);
      NeverLonger(specials, text[2..]);
    }
  }

  lemma EscapeMarkdownReadsBackIff(text: string)
    ensures Read(MARKDOWN, EscapeMarkdown(text)) == Some(text) <==> BACKSLASH !in text
  {
    assert forall i :: 0 <= i < |MARKDOWN| ==> MARKDOWN[i] != BACKSLASH;
    PlainReadsBackIff(MARKDOWN, text);
  }

  lemma {:induction false} ReplaceSnoc(pairs: Pairs, text: string, c: char)
    ensures Replace(pairs, text + [c]) == Replace(pairs, text) + Lookup(pairs, c)
    decreases |text|
  {
    if text == "" {
    } else {
      ReplaceSnoc(pairs, text[1..], c);
      assert (text + [c])[1..] == text[1..] + [c];
    }
  }

  /** Even so, no two texts are escaped to the same output, whatever the specials are. */
  lemma {:induction false} EscapingIsInjective(specials: string, a: string, b: string)
    requires Replace(Escapes(specials), a) == Replace(Escapes(specials), b)
    ensures a == b
    decreases |a|
  {
    hide Escapes, Lookup, Replace;
    ReplaceNothing(Escapes(specials));
    if a == "" {
    } else {
      Ends(specials, a[..|a| - 1], a[|a| - 1]); assert a[..|a| - 1] + [a[|a| - 1]] == a;
    }
    if b == "" {
    } else {
      Ends(specials, b[..|b| - 1], b[|b| - 1]); assert b[..|b| - 1] + [b[|b| - 1]] == b;
    }
    if a == "" || b == "" {
    } else {
      var m, n := |a| - 1, |b| - 1;
      SameEnd(specials, Replace(Escapes(specials), a[..m]), a[m], Replace(Escapes(specials), b[..n]), b[n]);
      EscapingIsInjective(specials, a[..m], b[..n]);
    }
  }

  lemma SameEnd(specials: string, s: string, c: char, t: string, d: char)
    requires s + Escaped(specials, c) == t + Escaped(specials, d)
    ensures c == d && s == t
  {
    var out := s + Escaped(specials, c);
    assert out[|out| - 1] == c == d;
    assert s == out[..|s|] == t;
  }

  lemma ReplaceNothing(pairs: Pairs)
    ensures Replace(pairs, "") == ""
  {
  }

  /** The output ends in the last character of the text, which tells how much of it that character made. */
  lemma Ends(specials: string, init: string, c: char)
    ensures Replace(Escapes(specials), init + [c]) == Replace(Escapes(specials), init) + Escaped(specials, c)
  {
    hide Escapes, Lookup, Replace;
    ReplaceSnoc(Escapes(specials), init, c);
    LookupEscape(specials, c);
  }

  // ----- One pass, or one pair after another -----

  /** Apply the pairs one after another, each to the whole text. */
  function Sequential(pairs: Pairs, text: string): string {
    if pairs == [] then text
    else Replace([pairs[|pairs| - 1]], Sequential(pairs[..|pairs| - 1], text))
  }

  ghost predicate Distinct(specials: string) {
    forall i, j :: 0 <= i < j < |specials| ==> specials[i] != specials[j]
  }

  lemma {:induction false} ReplaceConcat(pairs: Pairs, s: string, t: string)
    ensures Replace(pairs, s + t) == Replace(pairs, s) + Replace(pairs, t)
    decreases |s|
  {
    if s == "" {
      assert s + t == t;
    } else {
      ReplaceConcat(pairs, s[1..], t);
      assert (s + t)[1..] == s[1..] + t;
    }
  }

  /** Escaping one more character, other than the backslash, extends the set of escaped characters. */
  lemma {:induction false} EscapeOneMore(done: string, c: char, text: string)
    requires c !in done && (c != BACKSLASH || done == "")
    ensures Replace(Escapes([c]), Replace(Escapes(done), text)) == Replace(Escapes(done + [c]), text)
    decreases |text|
  {
    hide Escapes, Lookup;
    if text == "" {
    } else {
      EscapeOneMore(done, c, text[1..]);
      LookupEscape(done, text[0]);
      LookupEscape(done + [c], text[0]);
      LookupEscape([c], text[0]);
      LookupEscape([c], BACKSLASH);
      var head, tail := Lookup(Escapes(done), text[0]), Replace(Escapes(done), text[1..]);
      ReplaceConcat(Escapes([c]), head, tail);
      Twice(Escapes([c]), head);
    }
  }

  lemma Twice(pairs: Pairs, s: string)
    ensures |s| == 1 ==> Replace(pairs, s) == Lookup(pairs, s[0])
    ensures |s| == 2 ==> Replace(pairs, s) == Lookup(pairs, s[0]) + Lookup(pairs, s[1])
  {
    hide Lookup;
    if |s| == 2 { assert s[1..] == [s[1]]; }
  }

  lemma {:induction false} SequentialIsOnePass(specials: string, text: string)
    requires Distinct(specials) && BACKSLASH !in specials[MinInt(1, |specials|)..]
    ensures Sequential(Escapes(specials), text) == Replace(Escapes(specials), text)
    decreases |specials|
  {
    if specials == "" {
      NothingToEscape(text);
    } else {
      var n := |specials| - 1;
      var c := specials[n];
      SequentialIsOnePass(specials[..n], text);
      EscapeOneMore(specials[..n], c, text);
      assert specials[..n] + [c] == specials;
      assert Escapes(specials)[..n] == Escapes(specials[..n]);
      assert [Escapes(specials)[n]] == Escapes([c]);
    }
  }

  lemma {:induction false} NothingToEscape(text: string)
    ensures Replace(Escapes(""), text) == text
    decreases |text|
  {
    if text == "" {
    } else {
      NothingToEscape(text[1..]);
    }
  }

  /** Replacing only ever lengthens, and strictly so where an escaped character occurs. */
  lemma {:induction false} EscapeLengthens(c: char, text: string)
    ensures |Replace(Escapes([c]), text)| >= |text| + (if c in text then 1 else 0)
    ensures BACKSLASH in text ==> BACKSLASH in Replace(Escapes([c]), text)
    decreases |text|
  {
    hide Escapes, Lookup;
    if text == "" {
    } else {
      EscapeLengthens(c, text[1..]);
      LookupEscape([c], text[0]);
    }
  }

  /** If the backslash comes later, the backslashes added before it are escaped once more. */
  lemma {:induction false} LateBackslashDoubles(specials: string, n: nat)
    requires 0 < n <= |specials| && specials[0] != BACKSLASH
    ensures var out := Sequential(Escapes(specials)[..n], [specials[0]]);
            && BACKSLASH in out && |out| >= 2 + (if BACKSLASH in specials[..n] then 1 else 0)
  {
    var c, pairs := specials[n - 1], Escapes(specials);
    assert pairs[..n][..n - 1] == pairs[..n - 1];
    assert [pairs[n - 1]] == Escapes([c]);
    var before := Sequential(pairs[..n - 1], [specials[0]]);
    EscapeLengthens(c, before);
    if n == 1 {
      LookupEscape([c], c);
      Twice(Escapes([c]), [c]);
    } else {
      LateBackslashDoubles(specials, n - 1);
    }
  }

  /** Applying distinct pairs one after another is the one pass, on all texts, exactly when no backslash comes after the first pair. */
  lemma SequentialIff(specials: string)
    requires Distinct(specials)
    ensures (forall text :: Sequential(Escapes(specials), text) == Replace(Escapes(specials), text))
            <==> BACKSLASH !in specials[MinInt(1, |specials|)..]
  {
    if BACKSLASH !in specials[MinInt(1, |specials|)..] {
      forall text ensures Sequential(Escapes(specials), text) == Replace(Escapes(specials), text) {
        SequentialIsOnePass(specials, text);
      }
    } else {
      var n := |specials|;
      var i :| 1 <= i < n && specials[i] == BACKSLASH;
      assert specials[0] != specials[i];
      LateBackslashDoubles(specials, n);
      assert Escapes(specials)[..n] == Escapes(specials) && specials[..n] == specials;
      LookupEscape(specials, specials[0]);
      Twice(Escapes(specials), [specials[0]]);
    }
  }

  lemma V2Sequential(text: string)
    ensures EscapeMarkdownV2(text) == Sequential(Escapes(MARKDOWN_V2), text)
    ensures EscapeMarkdownV2Code(text) == Sequential(Escapes(CODE), text)
    ensures EscapeMarkdownV2Link(text) == Sequential(Escapes(LINK), text)
  {
    SequentialIsOnePass(CODE, text);
    SequentialIsOnePass(LINK, text);
    V2Distinct();
    SequentialIsOnePass(MARKDOWN_V2, text);
  }

  lemma V2Distinct()
    ensures Distinct(MARKDOWN_V2)
  {
    forall i, j | 0 <= i < j < |MARKDOWN_V2| ensures MARKDOWN_V2[i] != MARKDOWN_V2[j] {
    }
  }
}
