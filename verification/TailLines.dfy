/** The last lines of a log. */
module TailLines {
  import opened Bytes

  const NEWLINE: byte := 0x0a

  /** Position of the first newline, or the length of the text. */
  function FirstNewline(s: Bytes): (k: nat)
    ensures k <= |s|
  {
    if s == [] then 0 else if s[0] == NEWLINE then 0 else 1 + FirstNewline(s[1..])
  }

  /** The lines of a text, each with the newline that ends it; the last one may have none. */
  function Lines(s: Bytes): (lines: seq<Bytes>)
    decreases |s|
  {
    if s == [] then []
    else
      var k := FirstNewline(s);
      if k == |s| then [s] else [s[..k + 1]] + Lines(s[k + 1..])
  }

  function Concat(parts: seq<Bytes>): (s: Bytes) {
    if parts == [] then [] else parts[0] + Concat(parts[1..])
  }

  /** strings.LastIndexByte(s[:end], newline) */
  method LastNewline(s: Bytes, end: nat) returns (k: int)
    requires end <= |s|
    ensures -1 <= k < end
    ensures k >= 0 ==> s[k] == NEWLINE
    ensures forall i :: k < i < end ==> s[i] != NEWLINE
  {
    k := end - 1;
    while k >= 0 && s[k] != NEWLINE
      invariant -1 <= k < end
      invariant forall i :: k < i < end ==> s[i] != NEWLINE
    {
      k := k - 1;
    }
  }

  lemma {:induction false} FirstNewlineIs(s: Bytes, k: nat)
    ensures FirstNewline(s) == k <==>
            k <= |s| && (k < |s| ==> s[k] == NEWLINE) && forall i :: 0 <= i < k ==> s[i] != NEWLINE
  {
    if s == [] || s[0] == NEWLINE || k == 0 {
    } else {
      FirstNewlineIs(s[1..], k - 1);
      assert (forall i :: 0 <= i < k - 1 && k <= |s| ==> s[1..][i] == s[i + 1]);
      assert k <= |s| ==> ((forall i :: 0 <= i < k ==> s[i] != NEWLINE) <==> forall i :: 0 <= i < k - 1 ==>
          s[1..][i] != NEWLINE) by {
        if k <= |s| && forall i :: 0 <= i < k - 1 ==> s[1..][i] != NEWLINE {
          forall i | 0 <= i < k
            ensures s[i] != NEWLINE
          {
            if i > 0 { assert s[1..][i - 1] == s[i]; }
          }
        }
      }
    }
  }

  lemma LinesHead(a: Bytes, b: Bytes, k: nat)
    requires k < |a| && a[k] == NEWLINE
    requires forall i :: 0 <= i < k ==> a[i] != NEWLINE
    ensures Lines(a + b) == [a[..k + 1]] + Lines(a[k + 1..] + b)
  {
    FirstNewlineIs(a + b, k);
    assert (a + b)[..k + 1] == a[..k + 1];
    assert (a + b)[k + 1..] == a[k + 1..] + b;
  }

  /** Cutting a text just after a newline cuts its lines there too. */
  lemma {:induction false} LinesSplit(a: Bytes, b: Bytes)
    requires a == [] || a[|a| - 1] == NEWLINE
    ensures Lines(a + b) == Lines(a) + Lines(b)
    decreases |a|
  {
    if a == [] {
      assert a + b == b;
    } else {
      var k := FirstNewline(a);
      FirstNewlineIs(a, k);
      var head, rest := a[..k + 1], a[k + 1..];
      LinesHead(a, b, k);
      LinesHead(a, [], k);
      assert a + [] == a && rest + [] == rest;
      LinesSplit(rest, b);
      assert [head] + (Lines(rest) + Lines(b)) == ([head] + Lines(rest)) + Lines(b);
    }
  }

  /** Text with no newline before its last byte is one line. */
  lemma OneLine(s: Bytes)
    requires s != []
    requires forall i :: 0 <= i < |s| - 1 ==> s[i] != NEWLINE
    ensures Lines(s) == [s]
  {
    if s[|s| - 1] == NEWLINE {
      FirstNewlineIs(s, |s| - 1);
      assert s[..|s| - 1 + 1] == s && Lines(s[|s| - 1 + 1..]) == [];
    } else {
      FirstNewlineIs(s, |s|);
    }
  }

  /** The lines of a text are the text. */
  lemma {:induction false} LinesConcat(s: Bytes)
    ensures Concat(Lines(s)) == s
    decreases |s|
  {
    if s == [] {
    } else {
      var k := FirstNewline(s);
      if k < |s| {
        LinesConcat(s[k + 1..]);
        assert s == s[..k + 1] + s[k + 1..];
      }
    }
  }

  function LastLines(s: Bytes, n: nat): (t: Bytes) {
    var lines := Lines(s);
    Concat(if n >= |lines| then lines else lines[|lines| - n..])
  }

  /** The stretch after a newline (or the start) up to where the next line begins is one more line. */
  lemma OneMoreLine(text: Bytes, newline: int, next: nat)
    requires -1 <= newline && newline + 1 < next <= |text|
    requires next == |text| || text[next - 1] == NEWLINE
    requires forall j :: newline + 1 <= j < next - 1 ==> text[j] != NEWLINE
    ensures Lines(text[newline + 1..]) == [text[newline + 1..next]] + Lines(text[next..])
  {
    var line := text[newline + 1..next];
    OneLine(line);
    assert text[newline + 1..] == line + text[next..];
    if next < |text| { LinesSplit(line, text[next..]); } else { assert line + text[next..] == line; }
  }

  /** Lines after a newline are the last lines of the text. */
  lemma LastLinesAfter(text: Bytes, newline: nat, n: nat)
    requires newline < |text| && text[newline] == NEWLINE && |Lines(text[newline + 1..])| == n
    ensures LastLines(text, n) == text[newline + 1..]
  {
    var a, b := text[..newline + 1], text[newline + 1..];
    assert text == a + b;
    LinesSplit(a, b);
    assert Lines(text)[|Lines(text)| - n..] == Lines(b);
    LinesConcat(b);
    if a == [] || n >= |Lines(text)| { LinesConcat(text); LinesConcat(a); }
  }

  lemma AllLines(text: Bytes, n: nat)
    requires |Lines(text)| <= n
    ensures LastLines(text, n) == text
  {
    LinesConcat(text);
  }

  /** The loop's state: the i lines from `next` on are accounted for, and `end` is where the search for
      the newline before them starts. */
  ghost predicate Scanned(text: Bytes, end: nat, next: nat, i: nat) {
    && end <= next <= |text|
    && (if end < |text| then next == end + 1 && text[end] == NEWLINE else text != [] ==> text[|text| - 1] != NEWLINE)
    && |Lines(text[next..])| == i
  }

  lemma ScanStep(text: Bytes, end: nat, next: nat, i: nat, newline: int)
    requires Scanned(text, end, next, i) && text != []
    requires -1 <= newline < end
    requires newline >= 0 ==> text[newline] == NEWLINE
    requires forall j :: newline < j < end ==> text[j] != NEWLINE
    ensures if newline < 0 then |Lines(text)| == i + 1 else Scanned(text, newline, newline + 1, i + 1)
  {
    OneMoreLine(text, newline, next);
    assert text[0..] == text;
  }

  lemma ScanStart(text: Bytes)
    ensures Scanned(text, if |text| > 0 && text[|text| - 1] == NEWLINE then |text| - 1 else |text|, |text|, 0)
  {
  }

  /** The loop of the source: `end` moves back one newline at a time, ignoring the one that ends the
      text, until n are passed or none is left. */
  method TailStart(text: Bytes, n: nat) returns (at: nat)
    requires n > 0
    ensures at <= |text|
    ensures at == 0 ==> |Lines(text)| <= n
    ensures at > 0 ==> text[at - 1] == NEWLINE && |Lines(text[at..])| == n
  {
    var end := if |text| > 0 && text[|text| - 1] == NEWLINE then |text| - 1 else |text|;
    ghost var next := |text|;
    ScanStart(text);
    for i := 0 to n
      invariant 0 <= end <= next
      invariant Scanned(text, end, next, i)
      invariant i > 0 ==> end < |text|
    {
      var newline := LastNewline(text, end);
      if text != [] { ScanStep(text, end, next, i, newline); }
      if newline < 0 {
        return 0;
      }
      end, next := newline, newline + 1;
    }
    at := end + 1;
  }

  /** The last n lines of text, or all of it when n is not positive. */
  method Tail(text: Bytes, n: int) returns (tail: Bytes)
    ensures tail == if n <= 0 then text else LastLines(text, n)
    ensures |tail| <= |text| && tail == text[|text| - |tail|..]
  {
    if n <= 0 { return text; }
    var at := TailStart(text, n);
    if at == 0 { AllLines(text, n); } else { LastLinesAfter(text, at - 1, n); }
    tail := text[at..];
  }
}
