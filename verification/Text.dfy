/** The string operations the sources use, on sequences of characters without normalisation. */
module Text {

  /** Position of the first c in s. */
  function IndexOf(s: string, c: char): (i: nat)
    requires c in s
    ensures i < |s| && s[i] == c && c !in s[..i]
  {
    if s[0] == c then 0 else 1 + IndexOf(s[1..], c)
  }

  /** `s.split(c)`. */
  function Split(s: string, c: char): (parts: seq<string>)
    ensures parts != []
    ensures forall i | 0 <= i < |parts| :: c !in parts[i]
    ensures |parts| == 1 <==> c !in s
    decreases |s|
  {
    if c !in s then [s]
    else var i := IndexOf(s, c); [s[..i]] + Split(s[i + 1..], c)
  }

  /** `c.join(parts)`. */
  function Join(parts: seq<string>, c: char): string {
    if parts == [] then ""
    else if |parts| == 1 then parts[0]
    else parts[0] + [c] + Join(parts[1..], c)
  }

  lemma {:induction false} CutAt(s: string, i: nat)
    requires i < |s|
    ensures s == s[..i] + [s[i]] + s[i + 1..]
  {
  }

  lemma {:induction false} JoinCons(head: string, parts: seq<string>, c: char)
    requires parts != []
    ensures Join([head] + parts, c) == head + [c] + Join(parts, c)
  {
    assert ([head] + parts)[1..] == parts;
  }

  lemma {:induction false} JoinSplit(s: string, c: char)
    ensures Join(Split(s, c), c) == s
    decreases |s|
  {
    if c in s {
      var i := IndexOf(s, c);
      var tail := s[i + 1..];
      JoinSplit(tail, c);
      JoinCons(s[..i], Split(tail, c), c);
      CutAt(s, i);
    }
  }

  lemma {:induction false} IndexOfAppend(a: string, c: char, b: string)
    requires c !in a
    ensures IndexOf(a + [c] + b, c) == |a|
  {
    var s := a + [c] + b;
    assert s[|a|] == c;
  }

  lemma {:induction false} SplitAppend(a: string, c: char, b: string)
    requires c !in a
    ensures Split(a + [c] + b, c) == [a] + Split(b, c)
  {
    var s := a + [c] + b;
    IndexOfAppend(a, c, b);
    assert s[|a|] == c;
    assert s[..|a|] == a && s[|a| + 1..] == b;
  }

  lemma {:induction false} SplitJoin(parts: seq<string>, c: char)
    requires parts != [] && forall i | 0 <= i < |parts| :: c !in parts[i]
    ensures Split(Join(parts, c), c) == parts
  {
    if |parts| > 1 {
      SplitJoin(parts[1..], c);
      SplitAppend(parts[0], c, Join(parts[1..], c));
    }
  }

  function Last(parts: seq<string>): string
    requires parts != []
  {
    parts[|parts| - 1]
  }

  lemma {:induction false} Reassociate(a: string, b: string, c: string, d: string)
    ensures a + (b + c + d) == (a + b) + c + d
  {
  }

  lemma {:induction false} SplitConcat(a: string, c: char, b: string)
    ensures Split(a + [c] + b, c) == Split(a, c) + Split(b, c)
    decreases |a|
  {
    if c !in a {
      SplitAppend(a, c, b);
    } else {
      var i := IndexOf(a, c);
      var head, tail := a[..i], a[i + 1..];
      CutAt(a, i);
      Reassociate(head + [c], tail, [c], b);
      SplitAppend(head, c, tail + [c] + b);
      SplitConcat(tail, c, b);
      ConsConcat(head, Split(tail, c), Split(b, c));
    }
  }

  lemma {:induction false} ConsConcat(x: string, a: seq<string>, b: seq<string>)
    ensures [x] + (a + b) == ([x] + a) + b
  {
  }

  /** The last part of a separated string. */
  ghost predicate LastPart(s: string, c: char, w: string) {
    c !in w && (s == w || exists front :: s == front + [c] + w)
  }

  /** Its last two parts. */
  ghost predicate LastParts(s: string, c: char, v: string, w: string) {
    c !in v && c !in w && (s == v + [c] + w || exists front :: s == front + [c] + (v + [c] + w))
  }

  lemma {:induction false} LastMeans(s: string, c: char, w: string)
    ensures Last(Split(s, c)) == w <==> LastPart(s, c, w)
  {
    if c in s {
      var front := LastCut(s, c);
    }
    if front :| c !in w && s == front + [c] + w {
      SplitConcat(front, c, w);
      assert Split(w, c) == [w];
    }
  }

  lemma {:induction false} LastTwoMean(s: string, c: char, v: string, w: string)
    ensures |Split(s, c)| >= 2 && Split(s, c)[|Split(s, c)| - 2] == v && Last(Split(s, c)) == w
       <==> LastParts(s, c, v, w)
  {
    if |Split(s, c)| >= 2 && Split(s, c)[|Split(s, c)| - 2] == v && Last(Split(s, c)) == w {
      CutTwo(s, c, v, w);
    }
    if LastParts(s, c, v, w) {
      JoinTwo(s, c, v, w);
    }
  }

  lemma {:induction false} CutTwo(s: string, c: char, v: string, w: string)
    requires |Split(s, c)| >= 2 && Split(s, c)[|Split(s, c)| - 2] == v && Last(Split(s, c)) == w
    ensures LastParts(s, c, v, w)
  {
    var front := LastCut(s, c);
    SplitConcat(front, c, w);
    assert Split(w, c) == [w] && Last(Split(front, c)) == v;
    LastMeans(front, c, v);
    if front != v {
      var start :| front == start + [c] + v;
      Reassociate(start + [c], v, [c], w);
      assert s == start + [c] + (v + [c] + w);
    }
  }

  lemma {:induction false} JoinTwo(s: string, c: char, v: string, w: string)
    requires LastParts(s, c, v, w)
    ensures |Split(s, c)| >= 2 && Split(s, c)[|Split(s, c)| - 2] == v && Last(Split(s, c)) == w
  {
    SplitAppend(v, c, w);
    assert Split(w, c) == [w] && Split(v + [c] + w, c) == [v, w];
    if s != v + [c] + w {
      var front :| s == front + [c] + (v + [c] + w);
      SplitConcat(front, c, v + [c] + w);
    }
  }

  lemma {:induction false} LastOfTail(s: string, c: char)
    requires c in s
    ensures Last(Split(s, c)) == Last(Split(s[IndexOf(s, c) + 1..], c))
  {
  }

  lemma {:induction false} LastCut(s: string, c: char) returns (a: string)
    requires c in s
    ensures s == a + [c] + Last(Split(s, c))
    decreases |s|
  {
    var i := IndexOf(s, c);
    var head, tail := s[..i], s[i + 1..];
    CutAt(s, i);
    LastOfTail(s, c);
    if c !in tail {
      a := head;
    } else {
      var b := LastCut(tail, c);
      a := head + [c] + b;
      Reassociate(head + [c], b, [c], Last(Split(tail, c)));
    }
  }

  /** `sub in s`. */
  predicate Contains(s: string, sub: string) {
    exists i: nat | i <= |s| :: OccursAt(s, sub, i)
  }

  predicate OccursAt(s: string, sub: string, i: nat) {
    i + |sub| <= |s| && s[i..i + |sub|] == sub
  }

  predicate EndsWith(s: string, suffix: string) {
    |suffix| <= |s| && s[|s| - |suffix|..] == suffix
  }

  predicate StartsWith(s: string, prefix: string) {
    prefix <= s
  }

  ghost predicate Around(s: string, a: string, mid: string, b: string) {
    s == a + mid + b
  }

  /** What the three tests mean. */
  lemma {:induction false} ContainsMeans(s: string, sub: string)
    ensures Contains(s, sub) <==> exists a, b :: Around(s, a, sub, b)
  {
    if Contains(s, sub) {
      var i: nat :| i <= |s| && OccursAt(s, sub, i);
      assert Around(s, s[..i], sub, s[i + |sub|..]);
    }
    if a, b :| Around(s, a, sub, b) {
      assert OccursAt(s, sub, |a|);
    }
  }

  lemma {:induction false} EndsWithMeans(s: string, suffix: string)
    ensures EndsWith(s, suffix) <==> exists a :: Around(s, a, suffix, "")
  {
    if EndsWith(s, suffix) {
      assert Around(s, s[..|s| - |suffix|], suffix, "");
    }
  }

  lemma {:induction false} StartsWithMeans(s: string, prefix: string)
    ensures StartsWith(s, prefix) <==> exists b :: Around(s, "", prefix, b)
  {
    if StartsWith(s, prefix) {
      assert Around(s, "", prefix, s[|prefix|..]);
    }
  }

  /** `s.replace(a, b)` for single characters. */
  function ReplaceChar(s: string, a: char, b: char): (r: string)
    ensures |r| == |s|
    ensures forall i | 0 <= i < |s| :: r[i] == if s[i] == a then b else s[i]
  {
    seq(|s|, i requires 0 <= i < |s| => if s[i] == a then b else s[i])
  }

  /** `s.lstrip(c)`. */
  function StripLeft(s: string, c: char): (r: string)
    ensures r == [] || r[0] != c
  {
    if s != [] && s[0] == c then StripLeft(s[1..], c) else s
  }

  /** `s.rstrip(c)`. */
  function StripRight(s: string, c: char): (r: string)
    ensures r == [] || r[|r| - 1] != c
    ensures r <= s
  {
    if s != [] && s[|s| - 1] == c then StripRight(s[..|s| - 1], c) else s
  }

  /** `s.strip(c)`. */
  function StripBoth(s: string, c: char): string {
    StripRight(StripLeft(s, c), c)
  }

  /** The characters `s.strip()` removes. */
  predicate IsSpace(c: char) {
    || c in " \t\n\r\U{0B}\U{0C}\U{1C}\U{1D}\U{1E}\U{1F}\U{85}\U{A0}"
    || c == '\U{1680}' || '\U{2000}' <= c <= '\U{200A}'
    || c in "\U{2028}\U{2029}\U{202F}\U{205F}\U{3000}"
  }

  /** `s.strip()`. */
  function StripSpace(s: string): (r: string)
    ensures s == [] || (!IsSpace(s[0]) && !IsSpace(s[|s| - 1])) ==> r == s
    ensures forall c :: c in r ==> c in s
  {
    if s != [] && IsSpace(s[0]) then StripSpace(s[1..])
    else if s != [] && IsSpace(s[|s| - 1]) then StripSpace(s[..|s| - 1])
    else s
  }

  predicate Only(s: string, p: char -> bool) {
    forall i | 0 <= i < |s| :: p(s[i])
  }

  /** Nothing but these characters has gone from both ends, and none of them is left there. */
  ghost predicate Trimmed(s: string, r: string, p: char -> bool) {
    && (exists a, b :: Around(s, a, r, b) && Only(a, p) && Only(b, p))
    && (r != "" ==> !p(r[0]) && !p(r[|r| - 1]))
  }

  lemma {:induction false} TrimmedFront(s: string, r: string, p: char -> bool)
    requires s != "" && p(s[0]) && Trimmed(s[1..], r, p)
    ensures Trimmed(s, r, p)
  {
    var a, b :| Around(s[1..], a, r, b) && Only(a, p) && Only(b, p);
    assert s == [s[0]] + s[1..];
    assert Around(s, [s[0]] + a, r, b);
  }

  lemma {:induction false} TrimmedBack(s: string, r: string, p: char -> bool)
    requires s != "" && p(s[|s| - 1]) && Trimmed(s[..|s| - 1], r, p)
    ensures Trimmed(s, r, p)
  {
    var n := |s| - 1;
    var a, b :| Around(s[..n], a, r, b) && Only(a, p) && Only(b, p);
    assert s == s[..n] + [s[n]];
    assert Around(s, a, r, b + [s[n]]);
  }

  lemma {:induction false} TrimmedNot(s: string, p: char -> bool)
    requires s == "" || (!p(s[0]) && !p(s[|s| - 1]))
    ensures Trimmed(s, s, p)
  {
    assert Around(s, "", s, "");
  }

  lemma {:induction false} StripSpaceExactly(s: string)
    ensures Trimmed(s, StripSpace(s), IsSpace)
    decreases |s|
  {
    if s != "" && IsSpace(s[0]) {
      StripSpaceExactly(s[1..]);
      TrimmedFront(s, StripSpace(s), IsSpace);
    } else if s != "" && IsSpace(s[|s| - 1]) {
      StripSpaceExactly(s[..|s| - 1]);
      TrimmedBack(s, StripSpace(s), IsSpace);
    } else {
      TrimmedNot(s, IsSpace);
    }
  }

  lemma {:induction false} StripRightExactly(s: string, c: char)
    requires s == "" || s[0] != c
    ensures Trimmed(s, StripRight(s, c), d => d == c)
  {
    if s != "" && s[|s| - 1] == c {
      StripRightExactly(s[..|s| - 1], c);
      TrimmedBack(s, StripRight(s, c), d => d == c);
    } else {
      TrimmedNot(s, d => d == c);
    }
  }

  lemma {:induction false} StripBothExactly(s: string, c: char)
    ensures Trimmed(s, StripBoth(s, c), d => d == c)
  {
    if s != "" && s[0] == c {
      StripBothExactly(s[1..], c);
      TrimmedFront(s, StripBoth(s, c), d => d == c);
    } else {
      StripRightExactly(s, c);
    }
  }

  /** The characters at which `s.splitlines()` cuts. */
  predicate IsBreak(c: char) {
    c in "\n\r\U{0B}\U{0C}\U{1C}\U{1D}\U{1E}\U{85}\U{2028}\U{2029}"
  }

  predicate HasBreak(s: string) {
    exists i :: 0 <= i < |s| && IsBreak(s[i])
  }

  function FirstBreak(s: string): (i: nat)
    requires HasBreak(s)
    ensures i < |s| && IsBreak(s[i]) && !HasBreak(s[..i])
  {
    if IsBreak(s[0]) then 0
    else
      BreakLater(s);
      var i := 1 + FirstBreak(s[1..]);
      NoBreakBefore(s, i);
      i
  }

  lemma {:induction false} BreakLater(s: string)
    requires HasBreak(s) && !IsBreak(s[0])
    ensures HasBreak(s[1..])
  {
    var k :| 0 <= k < |s| && IsBreak(s[k]);
    assert IsBreak(s[1..][k - 1]);
  }

  lemma {:induction false} NoBreakBefore(s: string, i: nat)
    requires 0 < i <= |s| && !IsBreak(s[0]) && !HasBreak(s[1..][..i - 1])
    ensures !HasBreak(s[..i])
  {
    forall k | 0 <= k < i ensures !IsBreak(s[..i][k]) {
      assert k > 0 ==> s[..i][k] == s[1..][..i - 1][k - 1];
    }
  }

  /** `s.splitlines()`: a carriage return with its line feed is one cut, a last cut opens no line. */
  function SplitLines(s: string): (lines: seq<string>)
    ensures NoBreaks(lines)
    decreases |s|
  {
    if s == "" then []
    else if !HasBreak(s) then [s]
    else
      var i := FirstBreak(s);
      var next := if s[i] == '\r' && i + 1 < |s| && s[i + 1] == '\n' then i + 2 else i + 1;
      [s[..i]] + SplitLines(s[next..])
  }

  lemma {:induction false} FirstBreakAppend(a: string, b: string)
    requires !HasBreak(a)
    ensures HasBreak(a + "\n" + b) && FirstBreak(a + "\n" + b) == |a|
  {
    var s := a + "\n" + b;
    assert s[|a|] == '\n' && IsBreak(s[|a|]);
    var i := FirstBreak(s);
    assert forall k :: 0 <= k < |a| ==> s[k] == a[k];
    assert forall k :: 0 <= k < i ==> s[..i][k] == s[k];
  }

  lemma {:induction false} SplitLinesAppend(a: string, b: string)
    requires !HasBreak(a)
    ensures SplitLines(a + "\n" + b) == [a] + SplitLines(b)
  {
    var s := a + "\n" + b;
    FirstBreakAppend(a, b);
    assert s[..|a|] == a && s[|a|] == '\n' && s[|a| + 1..] == b;
  }

  predicate NoBreaks(lines: seq<string>) {
    forall i :: 0 <= i < |lines| ==> !HasBreak(lines[i])
  }

  lemma {:induction false} NoBreaksAppend(a: seq<string>, b: seq<string>)
    requires NoBreaks(a) && NoBreaks(b)
    ensures NoBreaks(a + b)
  {
  }

  /** Every line followed by a line feed, and then the rest. */
  function Lines(lines: seq<string>, rest: string): string {
    if lines == [] then rest else lines[0] + "\n" + Lines(lines[1..], rest)
  }

  lemma {:induction false} ConsAppend(lines: seq<string>, more: seq<string>)
    requires lines != []
    ensures [lines[0]] + (lines[1..] + more) == lines + more
  {
  }

  lemma {:induction false} SplitLinesOfLines(lines: seq<string>, rest: string)
    requires NoBreaks(lines)
    ensures SplitLines(Lines(lines, rest)) == lines + SplitLines(rest)
  {
    if lines != [] {
      var tail := lines[1..];
      SplitLinesOfLines(tail, rest);
      SplitLinesAppend(lines[0], Lines(tail, rest));
      ConsAppend(lines, SplitLines(rest));
    }
  }

  lemma {:induction false} JoinIsLines(lines: seq<string>, end: string)
    requires lines != []
    ensures Join(lines, '\n') + ("\n" + end) == Lines(lines, end)
  {
    if |lines| == 1 {
      assert Lines(lines[1..], end) == end;
    } else {
      JoinIsLines(lines[1..], end);
      var tail := Join(lines[1..], '\n');
      assert lines[0] + ['\n'] + tail + ("\n" + end) == lines[0] + "\n" + (tail + ("\n" + end));
    }
  }

  lemma {:induction false} LinesAppend(a: seq<string>, b: seq<string>, rest: string)
    ensures Lines(a + b, rest) == Lines(a, Lines(b, rest))
  {
    if a == [] {
      assert a + b == b;
    } else {
      LinesAppend(a[1..], b, rest);
      assert (a + b)[1..] == a[1..] + b;
    }
  }

  /** Leading lines without cuts of their own come back from a written text as they were. */
  lemma {:induction false} SplitJoined(first: seq<string>, rest: seq<string>)
    requires first != [] && NoBreaks(first)
    ensures SplitLines(Join(first + rest, '\n') + "\n") == first + SplitLines(Lines(rest, ""))
  {
    JoinIsLines(first + rest, "");
    LinesAppend(first, rest, "");
    SplitLinesOfLines(first, Lines(rest, ""));
    assert "\n" + "" == "\n";
  }

  lemma {:induction false} StripLeftOne(s: string, c: char)
    requires s == "" || s[0] != c
    ensures StripLeft([c] + s, c) == s
  {
    assert ([c] + s)[1..] == s;
    assert StripLeft([c] + s, c) == StripLeft(s, c);
  }

  lemma {:induction false} StripRightOne(s: string, c: char)
    requires s == "" || s[|s| - 1] != c
    ensures StripRight(s + [c], c) == s
  {
    assert (s + [c])[..|s|] == s;
    assert StripRight(s + [c], c) == StripRight(s, c);
  }

  /** Stripping takes one character off both ends, whatever lies between as long as it does not start or end with it. */
  lemma {:induction false} StripBothOne(s: string, c: char)
    requires s != "" ==> s[0] != c && s[|s| - 1] != c
    ensures StripBoth([c] + s + [c], c) == s
  {
    if s == "" {
      assert [c] + s + [c] == [c] + ([c] + "");
      assert ([c] + ([c] + ""))[1..] == [c] + "";
      StripLeftOne("", c);
    } else {
      assert [c] + s + [c] == [c] + (s + [c]);
      StripLeftOne(s + [c], c);
      StripRightOne(s, c);
    }
  }
}
