/** strings.TrimSpace and strings.Fields over bytes. White space is what unicode.IsSpace says, in
    its UTF-8 encoding: no such encoding begins inside another rune, so it is found byte by byte. */
module Text {
  import opened Bytes

  /** Length of the white space rune that s starts with, or 0. */
  function SpaceAt(s: Bytes): (n: nat)
    ensures n <= |s|
  {
    if |s| >= 1 && (9 <= s[0] <= 13 || s[0] == 0x20) then 1
    else if |s| >= 2 && s[0] == 0xC2 && (s[1] == 0x85 || s[1] == 0xA0) then 2
    else if |s| >= 3 && s[0] == 0xE1 && s[1] == 0x9A && s[2] == 0x80 then 3
    else if |s| >= 3 && s[0] == 0xE2 && s[1] == 0x80
            && (0x80 <= s[2] <= 0x8A || s[2] == 0xA8 || s[2] == 0xA9 || s[2] == 0xAF) then 3
    else if |s| >= 3 && s[0] == 0xE2 && s[1] == 0x81 && s[2] == 0x9F then 3
    else if |s| >= 3 && s[0] == 0xE3 && s[1] == 0x80 && s[2] == 0x80 then 3
    else 0
  }

  /** Length of the white space rune that s ends with, or 0. */
  function SpaceBefore(s: Bytes): (n: nat)
    ensures n <= |s|
  {
    if |s| >= 1 && SpaceAt(s[|s| - 1..]) == 1 then 1
    else if |s| >= 2 && SpaceAt(s[|s| - 2..]) == 2 then 2
    else if |s| >= 3 && SpaceAt(s[|s| - 3..]) == 3 then 3
    else 0
  }

  function TrimLeft(s: Bytes): (t: Bytes)
    decreases |s|
  {
    if SpaceAt(s) == 0 then s else TrimLeft(s[SpaceAt(s)..])
  }

  function TrimRight(s: Bytes): (t: Bytes)
    decreases |s|
  {
    if SpaceBefore(s) == 0 then s else TrimRight(s[..|s| - SpaceBefore(s)])
  }

  function TrimSpace(s: Bytes): (t: Bytes) {
    TrimRight(TrimLeft(s))
  }

  /** The words still to come, `word` being the one under way. */
  function FieldsFrom(word: Bytes, s: Bytes): (words: seq<Bytes>)
    decreases |s|
  {
    var done := if word == [] then [] else [word];
    if s == [] then done
    else if SpaceAt(s) > 0 then done + FieldsFrom([], s[SpaceAt(s)..])
    else FieldsFrom(word + [s[0]], s[1..])
  }

  function Fields(s: Bytes): (words: seq<Bytes>) {
    FieldsFrom([], s)
  }

  const SPACE: byte := 0x20

  /** strings.Join(words, " ") */
  function Join(words: seq<Bytes>): (s: Bytes) {
    if words == [] then []
    else if |words| == 1 then words[0]
    else words[0] + [SPACE] + Join(words[1..])
  }

  /** No white space rune begins anywhere in w. */
  ghost predicate Solid(w: Bytes) {
    forall i :: 0 <= i < |w| ==> SpaceAt(w[i..]) == 0
  }

  /** What Fields may yield: words that are not empty and hold no white space. */
  ghost predicate AreWords(words: seq<Bytes>) {
    forall i :: 0 <= i < |words| ==> words[i] != [] && Solid(words[i])
  }

  lemma SpaceStays(a: Bytes, b: Bytes)
    requires SpaceAt(a) > 0
    ensures SpaceAt(a + b) == SpaceAt(a)
  {
  }

  lemma {:induction false} FieldsFromYieldsWords(word: Bytes, s: Bytes)
    requires forall i :: 0 <= i < |word| ==> SpaceAt((word + s)[i..]) == 0
    ensures AreWords(FieldsFrom(word, s))
    decreases |s|
  {
    forall i | 0 <= i < |word|
      ensures SpaceAt(word[i..]) == 0
    {
      assert (word + s)[i..] == word[i..] + s;
      if SpaceAt(word[i..]) > 0 { SpaceStays(word[i..], s); }
    }
    if s != [] {
      if SpaceAt(s) > 0 {
        FieldsFromYieldsWords([], s[SpaceAt(s)..]);
      } else {
        assert word + [s[0]] + s[1..] == word + s;
        assert (word + s)[|word|..] == s;
        FieldsFromYieldsWords(word + [s[0]], s[1..]);
      }
    }
  }

  lemma FieldsAreWords(s: Bytes)
    ensures AreWords(Fields(s))
  {
    FieldsFromYieldsWords([], s);
  }

  /** A word followed by a space, or by nothing, still shows no white space before its end. */
  lemma SolidBeforeSpace(w: Bytes, rest: Bytes)
    requires w != [] && SpaceAt(w) == 0
    ensures SpaceAt(w + [SPACE] + rest) == 0
  {
  }

  lemma {:induction false} FieldsFromTakesWord(word: Bytes, w: Bytes, rest: Bytes)
    requires Solid(w) && word + w != []
    ensures FieldsFrom(word, w + [SPACE] + rest) == [word + w] + FieldsFrom([], rest)
    ensures FieldsFrom(word, w) == [word + w]
    decreases |w|
  {
    if w == [] {
      assert w + [SPACE] + rest == [SPACE] + rest && ([SPACE] + rest)[1..] == rest;
      assert word + w == word;
    } else {
      assert w[0..] == w;
      SolidBeforeSpace(w, rest);
      assert (w + [SPACE] + rest)[1..] == w[1..] + [SPACE] + rest;
      assert forall i :: 0 <= i < |w[1..]| ==> w[1..][i..] == w[i + 1..];
      assert word + [w[0]] + w[1..] == word + w;
      FieldsFromTakesWord(word + [w[0]], w[1..], rest);
    }
  }

  /** Splitting what was joined gives the words back. */
  lemma {:induction false} FieldsOfJoin(words: seq<Bytes>)
    requires AreWords(words)
    ensures Fields(Join(words)) == words
  {
    if |words| == 1 {
      FieldsFromTakesWord([], words[0], []);
      assert [] + words[0] == words[0];
    } else if |words| > 1 {
      FieldsFromTakesWord([], words[0], Join(words[1..]));
      FieldsOfJoin(words[1..]);
      assert [] + words[0] == words[0];
    }
  }

  // ----- joined words need no trimming -----

  lemma {:induction false} JoinEndsWithLast(words: seq<Bytes>) returns (before: Bytes)
    requires words != []
    ensures Join(words) == before + words[|words| - 1]
    ensures before != [] ==> before[|before| - 1] == SPACE
  {
    if |words| == 1 {
      before := [];
    } else {
      var more := JoinEndsWithLast(words[1..]);
      before := words[0] + [SPACE] + more;
      JoinedLast(words[0], more, Join(words[1..]), words[|words| - 1]);
    }
  }

  lemma JoinedLast(first: Bytes, more: Bytes, rest: Bytes, last: Bytes)
    requires rest == more + last && (more != [] ==> more[|more| - 1] == SPACE)
    ensures first + [SPACE] + rest == first + [SPACE] + more + last
    ensures (first + [SPACE] + more)[|first| + |more|] == SPACE
  {
  }

  /** A rune of k bytes that ends in a word would begin inside it, at the space before it, or before
      that space; none of these is white space of k bytes. */
  lemma NoSpaceEnding(before: Bytes, w: Bytes, k: nat)
    requires w != [] && Solid(w) && (before != [] ==> before[|before| - 1] == SPACE)
    requires 1 <= k <= 3 && k <= |before + w|
    ensures SpaceAt((before + w)[|before + w| - k..]) != k
  {
    var s := before + w;
    var tail := s[|s| - k..];
    if k <= |w| {
      assert tail == w[|w| - k..];
    } else if k == |w| + 1 {
      assert tail[0] == SPACE;
    } else {
      assert tail[1] == SPACE;
    }
  }

  lemma SolidEnding(before: Bytes, w: Bytes)
    requires w != [] && Solid(w) && (before != [] ==> before[|before| - 1] == SPACE)
    ensures SpaceBefore(before + w) == 0
  {
    var n := |before + w|;
    NoSpaceEnding(before, w, 1);
    if n >= 2 { NoSpaceEnding(before, w, 2); }
    if n >= 3 { NoSpaceEnding(before, w, 3); }
  }

  lemma SolidBeginning(words: seq<Bytes>)
    requires words != [] && words[0] != [] && Solid(words[0])
    ensures SpaceAt(Join(words)) == 0
  {
    assert words[0][0..] == words[0];
    if |words| > 1 { SolidBeforeSpace(words[0], Join(words[1..])); }
  }

  lemma JoinNeedsNoTrim(words: seq<Bytes>)
    requires AreWords(words)
    ensures TrimSpace(Join(words)) == Join(words)
  {
    if words != [] {
      SolidBeginning(words);
      var before := JoinEndsWithLast(words);
      SolidEnding(before, words[|words| - 1]);
      TrimKeeps(Join(words));
    }
  }

  /** Text with no white space at either end is left alone. */
  lemma TrimKeeps(s: Bytes)
    requires SpaceAt(s) == 0 && SpaceBefore(s) == 0
    ensures TrimSpace(s) == s
  {
  }

  // ----- what white space is -----

  /** The code points of unicode.IsSpace. */
  predicate White(r: int) {
    9 <= r <= 13 || r == 0x20 || r == 0x85 || r == 0xA0 || r == 0x1680 || 0x2000 <= r <= 0x200A || r == 0x2028
        || r == 0x2029 || r == 0x202F || r == 0x205F || r == 0x3000
  }

  /** The UTF-8 encoding of a code point below 2^16 (RFC 3629, section 3). */
  function Utf8(r: int): (b: Bytes)
    requires 0 <= r < 0x1_0000
  {
    if r < 0x80 then [r]
    else if r < 0x800 then [0xC0 + r / 0x40, 0x80 + r % 0x40]
    else [0xE0 + r / 0x1000, 0x80 + r / 0x40 % 0x40, 0x80 + r % 0x40]
  }

  /** The code point of the white space rune that s starts with. */
  function RuneAt(s: Bytes): (r: int)
    requires SpaceAt(s) > 0
  {
    var lead: int := s[0];
    if SpaceAt(s) == 1 then lead
    else
      var second: int := s[1];
      if SpaceAt(s) == 2 then (lead - 0xC0) * 0x40 + (second - 0x80)
      else
        var third: int := s[2];
        (lead - 0xE0) * 0x1000 + (second - 0x80) * 0x40 + (third - 0x80)
  }

  /** Where the encoding of a white space code point stands, all of it is taken. */
  lemma WhiteIsSpace(s: Bytes, r: int)
    requires White(r) && Utf8(r) <= s
    ensures SpaceAt(s) == |Utf8(r)|
  {
    assert forall i :: 0 <= i < |Utf8(r)| ==> s[i] == Utf8(r)[i];
  }

  /** What is taken for white space is the encoding of a white space code point. */
  lemma SpaceIsWhite(s: Bytes)
    requires SpaceAt(s) > 0
    ensures White(RuneAt(s)) && Utf8(RuneAt(s)) == s[..SpaceAt(s)]
  {
    if SpaceAt(s) == 2 { TwoByteSpace(s); }
    if SpaceAt(s) == 3 { ThreeByteSpace(s); }
  }

  lemma TwoByteSpace(s: Bytes)
    requires SpaceAt(s) == 2
    ensures RuneAt(s) in {0x85, 0xA0} && Utf8(RuneAt(s)) == [s[0], s[1]]
  {
  }

  lemma ThreeByteSpace(s: Bytes)
    requires SpaceAt(s) == 3
    ensures White(RuneAt(s)) && Utf8(RuneAt(s)) == [s[0], s[1], s[2]]
  {
    var r := RuneAt(s);
    assert r / 0x1000 == s[0] - 0xE0 && r / 0x40 % 0x40 == s[1] - 0x80 && r % 0x40 == s[2] - 0x80;
  }

  // ----- trimming and splitting -----

  /** The words are those before any white space and then those after it. With FieldsOfJoin, which gives a
      lone word, this determines them. */
  lemma {:induction false} SpacesSeparate(word: Bytes, s: Bytes, space: Bytes, rest: Bytes)
    requires space != [] && SpaceAt(space) == |space|
    ensures FieldsFrom(word, s + (space + rest)) == FieldsFrom(word, s) + Fields(rest)
    decreases |s|
  {
    if s == [] {
      SpaceStays(space, rest);
      assert s + (space + rest) == space + rest && (space + rest)[|space|..] == rest;
    } else if SpaceAt(s) > 0 {
      SpaceStays(s, space + rest);
      assert (s + (space + rest))[SpaceAt(s)..] == s[SpaceAt(s)..] + (space + rest);
      SpacesSeparate([], s[SpaceAt(s)..], space, rest);
    } else {
      NoSpaceStraddles(s, space, rest);
      assert (s + (space + rest))[1..] == s[1..] + (space + rest);
      SpacesSeparate(word + [s[0]], s[1..], space, rest);
    }
  }

  /** White space at the end makes no difference. */
  lemma FieldsBeforeSpace(s: Bytes, space: Bytes)
    requires space != [] && SpaceAt(space) == |space|
    ensures Fields(s + space) == Fields(s)
  {
    SpacesSeparate([], s, space, []);
    assert space + [] == space;
  }

  /** The encoding of white space does not begin before another's. */
  lemma NoSpaceStraddles(s: Bytes, space: Bytes, rest: Bytes)
    requires s != [] && SpaceAt(s) == 0 && space != [] && SpaceAt(space) == |space|
    ensures SpaceAt(s + (space + rest)) == 0
  {
  }

  lemma {:induction false} FieldsOfTrimLeft(s: Bytes)
    ensures Fields(TrimLeft(s)) == Fields(s)
    decreases |s|
  {
    if SpaceAt(s) == 0 {
    } else {
      FieldsOfTrimLeft(s[SpaceAt(s)..]);
    }
  }

  lemma SpaceBeforeIsSpace(s: Bytes)
    requires SpaceBefore(s) > 0
    ensures var space := s[|s| - SpaceBefore(s)..];
            space != [] && SpaceAt(space) == |space| && s == s[..|s| - SpaceBefore(s)] + space
  {
  }

  lemma {:induction false} FieldsOfTrimRight(s: Bytes)
    ensures Fields(TrimRight(s)) == Fields(s)
    decreases |s|
  {
    if SpaceBefore(s) == 0 {
    } else {
      var n := |s| - SpaceBefore(s);
      SpaceBeforeIsSpace(s);
      FieldsBeforeSpace(s[..n], s[n..]);
      FieldsOfTrimRight(s[..n]);
    }
  }

  lemma FieldsOfTrim(s: Bytes)
    ensures Fields(TrimSpace(s)) == Fields(s)
  {
    FieldsOfTrimLeft(s);
    FieldsOfTrimRight(TrimLeft(s));
  }

  /** Nothing but white space. */
  ghost predicate Blank(s: Bytes)
    decreases |s|
  {
    s == [] || (SpaceAt(s) > 0 && Blank(s[SpaceAt(s)..]))
  }

  lemma {:induction false} TrimLeftExactly(s: Bytes) returns (left: Bytes)
    ensures s == left + TrimLeft(s) && Blank(left) && SpaceAt(TrimLeft(s)) == 0
    decreases |s|
  {
    if SpaceAt(s) == 0 {
      left := [];
    } else {
      var n := SpaceAt(s);
      var more := TrimLeftExactly(s[n..]);
      left := s[..n] + more;
      BlankTaken(s, more);
      Regrouped(s, n, more, TrimLeft(s));
    }
  }

  lemma Regrouped(s: Bytes, n: nat, more: Bytes, rest: Bytes)
    requires n <= |s| && s[n..] == more + rest
    ensures s == s[..n] + more + rest
  {
  }

  lemma BlankTaken(s: Bytes, more: Bytes)
    requires SpaceAt(s) > 0 && Blank(more)
    ensures Blank(s[..SpaceAt(s)] + more)
  {
    var n := SpaceAt(s);
    var taken := s[..n] + more;
    assert taken[n..] == more;
    assert forall i :: 0 <= i < n ==> taken[i] == s[i];
  }

  lemma {:induction false} BlankAppend(a: Bytes, b: Bytes)
    requires Blank(a) && Blank(b)
    ensures Blank(a + b)
    decreases |a|
  {
    if a == [] {
      assert a + b == b;
    } else {
      SpaceStays(a, b);
      assert (a + b)[SpaceAt(a)..] == a[SpaceAt(a)..] + b;
      BlankAppend(a[SpaceAt(a)..], b);
    }
  }

  lemma {:induction false} TrimRightExactly(s: Bytes) returns (right: Bytes)
    ensures s == TrimRight(s) + right && Blank(right) && SpaceBefore(TrimRight(s)) == 0
    decreases |s|
  {
    if SpaceBefore(s) == 0 {
      right := [];
    } else {
      var n := |s| - SpaceBefore(s);
      var more := TrimRightExactly(s[..n]);
      BlankEnding(s);
      BlankAppend(more, s[n..]);
      right := more + s[n..];
      RegroupedBack(s, n, TrimRight(s), more);
    }
  }

  lemma RegroupedBack(s: Bytes, n: nat, rest: Bytes, more: Bytes)
    requires n <= |s| && s[..n] == rest + more
    ensures s == rest + (more + s[n..])
  {
  }

  lemma BlankEnding(s: Bytes)
    requires SpaceBefore(s) > 0
    ensures Blank(s[|s| - SpaceBefore(s)..])
  {
    SpaceBeforeIsSpace(s);
    var space := s[|s| - SpaceBefore(s)..];
    assert space[|space|..] == [];
  }

  /** Trimming takes white space from both ends, nothing else, and all of it. */
  lemma TrimSpaceExactly(s: Bytes) returns (left: Bytes, right: Bytes)
    ensures s == left + TrimSpace(s) + right && Blank(left) && Blank(right)
    ensures SpaceBefore(TrimSpace(s)) == 0 && SpaceAt(TrimSpace(s)) == 0
  {
    left := TrimLeftExactly(s);
    right := TrimRightExactly(TrimLeft(s));
    NoSpaceBegun(TrimRight(TrimLeft(s)), right);
    Around(s, left, TrimLeft(s), TrimRight(TrimLeft(s)), right);
  }

  lemma Around(s: Bytes, left: Bytes, rest: Bytes, middle: Bytes, right: Bytes)
    requires s == left + rest && rest == middle + right
    ensures s == left + middle + right
  {
  }

  lemma NoSpaceBegun(a: Bytes, b: Bytes)
    requires SpaceAt(a + b) == 0
    ensures SpaceAt(a) == 0
  {
    if SpaceAt(a) > 0 { SpaceStays(a, b); }
  }
}
