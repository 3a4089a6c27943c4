/** Release tags: plain versions, release candidates and the legacy scheme, and one order over all three. */
module ReleaseVersion {
  import opened Outcomes
  import opened Text

  // ---- Numerals ----

  predicate IsDigit(c: char) {
    '0' <= c <= '9'
  }

  predicate IsLower(c: char) {
    'a' <= c <= 'z'
  }

  predicate AllDigits(s: string) {
    forall i :: 0 <= i < |s| ==> IsDigit(s[i])
  }

  /** `0|[1-9][0-9]*` */
  predicate IsNumeral(s: string) {
    s == "0" || IsPositive(s)
  }

  /** `[1-9][0-9]*` */
  predicate IsPositive(s: string) {
    s != "" && s[0] != '0' && AllDigits(s)
  }

  /** `[a-z][a-z0-9]*`, where `rc` itself is taken by release candidates. */
  predicate IsLegacyWord(s: string) {
    s != "" && s != "rc" && IsLower(s[0]) && forall i :: 0 <= i < |s| ==> IsLower(s[i]) || IsDigit(s[i])
  }

  predicate Letter(c: char) { c in "abcdefghijklmnopqrstuvwxyz" }

  /** A legacy word is a letter and then letters and digits, and not `rc`. */
  lemma {:induction false} LegacyWordExactly(s: string)
    ensures IsLegacyWord(s) <==>
              s != "rc" && s != "" && Letter(s[0]) && forall c | c in s[1..] :: Letter(c) || c in "0123456789"
  {
    forall c ensures IsLower(c) <==> Letter(c) {
    }
    forall c ensures IsDigit(c) <==> c in "0123456789" {
    }
    if s != "" {
      assert forall i | 0 < i < |s| :: s[i] == s[1..][i - 1] && s[i] in s[1..];
    }
  }

  function DigitValue(c: char): (d: nat)
    requires IsDigit(c)
    ensures d < 10
  {
    c as nat - '0' as nat
  }

  function Digit(d: nat): (c: char)
    requires d < 10
    ensures IsDigit(c) && DigitValue(c) == d
    ensures c == '0' <==> d == 0
  {
    d as char + '0'
  }

  /** `int(s)` of a string of digits. */
  function Value(s: string): nat
    requires AllDigits(s)
  {
    if s == "" then 0 else 10 * Value(s[..|s| - 1]) + DigitValue(s[|s| - 1])
  }

  function Show(n: nat): (s: string)
    ensures IsNumeral(s) && AllDigits(s) && s != ""
    ensures n > 0 ==> IsPositive(s)
  {
    if n < 10 then [Digit(n)] else Show(n / 10) + [Digit(n % 10)]
  }

  lemma {:induction false} ShowValue(n: nat)
    ensures Value(Show(n)) == n
  {
    if n >= 10 {
      ShowValue(n / 10);
      assert Show(n)[..|Show(n)| - 1] == Show(n / 10);
    } else {
      assert Show(n)[..0] == "";
    }
  }

  lemma {:induction false} PositiveValue(s: string)
    requires IsPositive(s)
    ensures Value(s) > 0 && Show(Value(s)) == s
  {
    var front, d := s[..|s| - 1], DigitValue(s[|s| - 1]);
    if front == "" {
      assert Value(front) == 0;
      assert Value(s) == d && [Digit(d)] == s;
    } else {
      PositiveValue(front);
      var n := Value(front);
      assert Value(s) == 10 * n + d && (10 * n + d) / 10 == n && (10 * n + d) % 10 == d;
      assert s == front + [s[|s| - 1]];
    }
  }

  lemma {:induction false} NumeralValue(s: string)
    requires IsNumeral(s)
    ensures AllDigits(s) && Show(Value(s)) == s
    ensures s == "0" <==> Value(s) == 0
  {
    if s == "0" {
      assert s[..0] == "";
    } else {
      PositiveValue(s);
    }
  }

  // ---- Tags ----

  datatype Tag =
    | Release(major: nat, minor: nat, patch: nat)
    | Candidate(major: nat, minor: nat, patch: nat, rc: nat)
    | Legacy(major: nat, minor: nat, patch: nat, word: string, revision: nat)

  predicate WellFormed(t: Tag) {
    (t.Candidate? ==> t.rc > 0) && (t.Legacy? ==> IsLegacyWord(t.word))
  }

  predicate Canonical(t: Tag) {
    !t.Legacy?
  }

  function Base(a: string, b: string, c: string): string {
    "v" + a + "." + b + "." + c
  }

  function Print(t: Tag): string {
    var base := Base(Show(t.major), Show(t.minor), Show(t.patch));
    match t
    case Release(_, _, _) => base
    case Candidate(_, _, _, rc) => base + "-rc." + Show(rc)
    case Legacy(_, _, _, word, revision) => base + "-" + word + "." + Show(revision)
  }

  // The three regular expressions, as statements about how a tag is put together.

  ghost predicate ReleaseShape(s: string, a: string, b: string, c: string) {
    IsNumeral(a) && IsNumeral(b) && IsNumeral(c) && s == Base(a, b, c)
  }

  ghost predicate CandidateShape(s: string, a: string, b: string, c: string, n: string) {
    IsNumeral(a) && IsNumeral(b) && IsNumeral(c) && IsPositive(n) && s == Base(a, b, c) + "-rc." + n
  }

  ghost predicate LegacyShape(s: string, a: string, b: string, c: string, w: string, n: string) {
    IsNumeral(a) && IsNumeral(b) && IsNumeral(c) && IsLegacyWord(w) && IsNumeral(n) &&
      s == Base(a, b, c) + "-" + w + "." + n
  }

  ghost predicate MatchesRelease(s: string) {
    exists a, b, c :: ReleaseShape(s, a, b, c)
  }

  ghost predicate MatchesCandidate(s: string) {
    exists a, b, c, n :: CandidateShape(s, a, b, c, n)
  }

  ghost predicate MatchesLegacy(s: string) {
    exists a, b, c, w, n :: LegacyShape(s, a, b, c, w, n)
  }

  /** The patch field of a four-part tag, `0-rc` say, as its numeral and its word. */
  function PatchAndWord(field: string): Option<(string, string)> {
    if '-' !in field then None
    else var i := IndexOf(field, '-'); Some((field[..i], field[i + 1..]))
  }

  function ParseFields(f: seq<string>): (t: Option<Tag>)
    ensures t.Some? ==> WellFormed(t.value)
  {
    if |f| == 3 then
      if IsNumeral(f[0]) && IsNumeral(f[1]) && IsNumeral(f[2]) then
        NumeralValue(f[0]); NumeralValue(f[1]); NumeralValue(f[2]);
        Some(Release(Value(f[0]), Value(f[1]), Value(f[2])))
      else None
    else if |f| == 4 && PatchAndWord(f[2]).Some? then
      var (c, w) := PatchAndWord(f[2]).value;
      if !(IsNumeral(f[0]) && IsNumeral(f[1]) && IsNumeral(c) && IsNumeral(f[3])) then None
      else
        NumeralValue(f[0]); NumeralValue(f[1]); NumeralValue(c); NumeralValue(f[3]);
        if w == "rc" then
          if f[3] == "0" then None else Some(Candidate(Value(f[0]), Value(f[1]), Value(c), Value(f[3])))
        else if IsLegacyWord(w) then Some(Legacy(Value(f[0]), Value(f[1]), Value(c), w, Value(f[3])))
        else None
    else None
  }

  /** Reads a tag by its dots and its dash. */
  function Parse(s: string): (t: Option<Tag>)
    ensures t.Some? ==> WellFormed(t.value)
  {
    if s == "" || s[0] != 'v' then None else ParseFields(Split(s[1..], '.'))
  }

  // ---- Printing and parsing are inverse ----

  lemma {:induction false} ThreeFields(a: string, b: string, c: string)
    requires '.' !in a && '.' !in b && '.' !in c
    ensures Base(a, b, c) != "" && Base(a, b, c)[0] == 'v'
    ensures Split(Base(a, b, c)[1..], '.') == [a, b, c]
  {
    assert Base(a, b, c)[1..] == a + "." + (b + "." + c);
    SplitAppend(a, '.', b + "." + c);
    SplitAppend(b, '.', c);
  }

  lemma {:induction false} BaseDash(a: string, b: string, c: string, w: string)
    ensures Base(a, b, c) + "-" + w == Base(a, b, c + "-" + w)
  {
  }

  lemma {:induction false} WithoutV(a: string, b: string, d: string, n: string)
    ensures Base(a, b, d) + "." + n == "v" + (a + "." + (b + "." + (d + "." + n)))
  {
  }

  lemma {:induction false} FourFields(a: string, b: string, d: string, n: string)
    requires '.' !in a && '.' !in b && '.' !in d && '.' !in n
    ensures var s := Base(a, b, d) + "." + n;
            s != "" && s[0] == 'v' && Split(s[1..], '.') == [a, b, d, n]
  {
    WithoutV(a, b, d, n);
    SplitFour(a, b, d, n);
    FourListed(a, b, d, n);
  }

  lemma {:induction false} FourListed(a: string, b: string, d: string, n: string)
    ensures [a] + ([b] + ([d] + [n])) == [a, b, d, n]
  {
    assert [d] + [n] == [d, n];
    assert [b] + [d, n] == [b, d, n];
  }

  lemma {:induction false} SplitFour(a: string, b: string, d: string, n: string)
    requires '.' !in a && '.' !in b && '.' !in d && '.' !in n
    ensures Split(a + "." + (b + "." + (d + "." + n)), '.') == [a] + ([b] + ([d] + [n]))
  {
    SplitStep(d, n, [n]);
    SplitStep(b, d + "." + n, [d] + [n]);
    SplitStep(a, b + "." + (d + "." + n), [b] + ([d] + [n]));
  }

  lemma {:induction false} SplitStep(a: string, rest: string, parts: seq<string>)
    requires '.' !in a && Split(rest, '.') == parts
    ensures Split(a + "." + rest, '.') == [a] + parts
  {
    SplitAppend(a, '.', rest);
  }

  lemma {:induction false} PatchSplits(c: string, w: string)
    requires AllDigits(c)
    ensures PatchAndWord(c + "-" + w) == Some((c, w))
  {
    IndexOfAppend(c, '-', w);
    var f := c + "-" + w;
    assert f[|c|] == '-' && f[..|c|] == c && f[|c| + 1..] == w;
  }

  /** What a release-shaped string parses to. */
  lemma {:induction false} ParseRelease(s: string, a: string, b: string, c: string)
    requires ReleaseShape(s, a, b, c)
    ensures AllDigits(a) && AllDigits(b) && AllDigits(c)
    ensures Parse(s) == Some(Release(Value(a), Value(b), Value(c)))
    ensures Print(Release(Value(a), Value(b), Value(c))) == s
  {
    NumeralValue(a);
    NumeralValue(b);
    NumeralValue(c);
    ThreeFields(a, b, c);
  }

  lemma {:induction false} ParseFour(s: string, a: string, b: string, c: string, w: string, n: string)
    requires IsNumeral(a) && IsNumeral(b) && IsNumeral(c) && IsNumeral(n) && (w == "rc" || IsLegacyWord(w))
    requires s == Base(a, b, c) + "-" + w + "." + n
    ensures AllDigits(a) && AllDigits(b) && AllDigits(c) && AllDigits(n)
    ensures Parse(s) == ParseFields([a, b, c + "-" + w, n]) && PatchAndWord(c + "-" + w) == Some((c, w))
  {
    NumeralValue(a);
    NumeralValue(b);
    NumeralValue(c);
    NumeralValue(n);
    BaseDash(a, b, c, w);
    FourFields(a, b, c + "-" + w, n);
    PatchSplits(c, w);
  }

  lemma {:induction false} ParseCandidate(s: string, a: string, b: string, c: string, n: string)
    requires CandidateShape(s, a, b, c, n)
    ensures AllDigits(a) && AllDigits(b) && AllDigits(c) && AllDigits(n)
    ensures Parse(s) == Some(Candidate(Value(a), Value(b), Value(c), Value(n)))
    ensures Print(Candidate(Value(a), Value(b), Value(c), Value(n))) == s
  {
    ParseFour(s, a, b, c, "rc", n);
    NumeralValue(a);
    NumeralValue(b);
    NumeralValue(c);
    NumeralValue(n);
  }

  lemma {:induction false} ParseLegacy(s: string, a: string, b: string, c: string, w: string, n: string)
    requires LegacyShape(s, a, b, c, w, n)
    ensures AllDigits(a) && AllDigits(b) && AllDigits(c) && AllDigits(n)
    ensures Parse(s) == Some(Legacy(Value(a), Value(b), Value(c), w, Value(n)))
    ensures Print(Legacy(Value(a), Value(b), Value(c), w, Value(n))) == s
  {
    ParseFour(s, a, b, c, w, n);
    NumeralValue(a);
    NumeralValue(b);
    NumeralValue(c);
    NumeralValue(n);
  }

  lemma {:induction false} PrintParse(t: Tag)
    requires WellFormed(t)
    ensures Parse(Print(t)) == Some(t)
  {
    ShowValue(t.major);
    ShowValue(t.minor);
    ShowValue(t.patch);
    match t {
      case Release(a, b, c) =>
        ParseRelease(Print(t), Show(a), Show(b), Show(c));
      case Candidate(a, b, c, n) =>
        ShowValue(n);
        ParseCandidate(Print(t), Show(a), Show(b), Show(c), Show(n));
      case Legacy(a, b, c, w, n) =>
        ShowValue(n);
        ParseLegacy(Print(t), Show(a), Show(b), Show(c), w, Show(n));
    }
  }

  lemma {:induction false} JoinThree(a: string, b: string, c: string)
    ensures "v" + Join([a, b, c], '.') == Base(a, b, c)
  {
    JoinCons(a, [b, c], '.');
    JoinCons(b, [c], '.');
    assert [a] + [b, c] == [a, b, c] && [b] + [c] == [b, c];
  }

  lemma {:induction false} JoinFour(a: string, b: string, d: string, n: string)
    ensures "v" + Join([a, b, d, n], '.') == Base(a, b, d) + "." + n
  {
    JoinCons(a, [b, d, n], '.');
    JoinCons(b, [d, n], '.');
    JoinCons(d, [n], '.');
    assert [a] + [b, d, n] == [a, b, d, n] && [b] + [d, n] == [b, d, n] && [d] + [n] == [d, n];
    WithoutV(a, b, d, n);
  }

  lemma {:induction false} ThreeShape(s: string, f: seq<string>)
    requires |f| == 3 && s == "v" + Join(f, '.') && ParseFields(f).Some?
    ensures ParseFields(f).value.Release? && ReleaseShape(s, f[0], f[1], f[2])
  {
    JoinThree(f[0], f[1], f[2]);
    assert f == [f[0], f[1], f[2]];
  }

  lemma {:induction false} FourJoined(s: string, f: seq<string>, c: string, w: string)
    requires |f| == 4 && s == "v" + Join(f, '.') && PatchAndWord(f[2]) == Some((c, w))
    ensures s == Base(f[0], f[1], c) + "-" + w + "." + f[3]
  {
    assert f == [f[0], f[1], f[2], f[3]];
    JoinFour(f[0], f[1], f[2], f[3]);
    CutAt(f[2], IndexOf(f[2], '-'));
    assert f[2] == c + "-" + w;
    BaseDash(f[0], f[1], c, w);
  }

  lemma {:induction false} FourShape(s: string, f: seq<string>)
    requires |f| == 4 && s == "v" + Join(f, '.') && ParseFields(f).Some?
    ensures ParseFields(f).value.Candidate? ==> MatchesCandidate(s)
    ensures ParseFields(f).value.Legacy? ==> MatchesLegacy(s)
    ensures !ParseFields(f).value.Release?
  {
    var (c, w) := PatchAndWord(f[2]).value;
    FourJoined(s, f, c, w);
    if w == "rc" {
      assert CandidateShape(s, f[0], f[1], c, f[3]);
    } else {
      assert LegacyShape(s, f[0], f[1], c, w, f[3]);
    }
  }

  lemma {:induction false} FieldsShape(s: string, f: seq<string>, t: Tag)
    requires s == "v" + Join(f, '.') && ParseFields(f) == Some(t)
    ensures HasShape(s, t)
  {
    if |f| == 3 {
      ThreeShape(s, f);
    } else {
      FourShape(s, f);
    }
  }

  ghost predicate HasShape(s: string, t: Tag) {
    && (t.Release? ==> MatchesRelease(s))
    && (t.Candidate? ==> MatchesCandidate(s))
    && (t.Legacy? ==> MatchesLegacy(s))
  }

  lemma {:induction false} JoinedBack(s: string, f: seq<string>)
    requires s != "" && s[0] == 'v' && f == Split(s[1..], '.')
    ensures s == "v" + Join(f, '.')
  {
    HeadAndTail(s);
    JoinSplit(s[1..], '.');
  }

  lemma {:induction false} HeadAndTail(s: string)
    requires s != "" && s[0] == 'v'
    ensures s == "v" + s[1..]
  {
  }

  /** What is accepted has the shape its kind says. */
  lemma {:induction false} ParseShape(s: string, t: Tag)
    requires Parse(s) == Some(t)
    ensures HasShape(s, t)
  {
    var f := Split(s[1..], '.');
    JoinedBack(s, f);
    FieldsShape(s, f, t);
  }

  /** Exactly the three patterns are accepted, each read as its own kind; so no string matches two of them. */
  lemma {:induction false} GrammarsAreDisjoint(s: string)
    ensures MatchesRelease(s) <==> Parse(s).Some? && Parse(s).value.Release?
    ensures MatchesCandidate(s) <==> Parse(s).Some? && Parse(s).value.Candidate?
    ensures MatchesLegacy(s) <==> Parse(s).Some? && Parse(s).value.Legacy?
  {
    if Parse(s).Some? {
      ParseShape(s, Parse(s).value);
    }
    if MatchesRelease(s) {
      var a, b, c :| ReleaseShape(s, a, b, c);
      ParseRelease(s, a, b, c);
    }
    if MatchesCandidate(s) {
      var a, b, c, n :| CandidateShape(s, a, b, c, n);
      ParseCandidate(s, a, b, c, n);
    }
    if MatchesLegacy(s) {
      var a, b, c, w, n :| LegacyShape(s, a, b, c, w, n);
      ParseLegacy(s, a, b, c, w, n);
    }
  }

  /** Parsing and printing are inverse on all strings and all well-formed tags. */
  lemma {:induction false} ParseExactly(s: string, t: Tag)
    ensures Parse(s) == Some(t) <==> WellFormed(t) && Print(t) == s
  {
    if WellFormed(t) {
      PrintParse(t);
    }
    if Parse(s) == Some(t) {
      ParseShape(s, t);
      match t {
        case Release(_, _, _) =>
          var a, b, c :| ReleaseShape(s, a, b, c);
          ParseRelease(s, a, b, c);
        case Candidate(_, _, _, _) =>
          var a, b, c, n :| CandidateShape(s, a, b, c, n);
          ParseCandidate(s, a, b, c, n);
        case Legacy(_, _, _, _, _) =>
          var a, b, c, w, n :| LegacyShape(s, a, b, c, w, n);
          ParseLegacy(s, a, b, c, w, n);
      }
    }
  }

  // ---- The order ----

  /** The comparable fields; kinds are 0 legacy, 1 candidate, 2 release. */
  datatype Key = Key(major: nat, minor: nat, patch: nat, kind: nat, revision: nat)

  function KeyOf(t: Tag): Key {
    match t
    case Release(a, b, c) => Key(a, b, c, 2, 0)
    case Candidate(a, b, c, n) => Key(a, b, c, 1, n)
    case Legacy(a, b, c, _, n) => Key(a, b, c, 0, n)
  }

  predicate KeyLess(x: Key, y: Key) {
    if x.major != y.major then x.major < y.major
    else if x.minor != y.minor then x.minor < y.minor
    else if x.patch != y.patch then x.patch < y.patch
    else if x.kind != y.kind then x.kind < y.kind
    else x.revision < y.revision
  }

  /** A canonical version's fields; anything else is rejected. */
  function ParseReleaseVersion(s: string): Option<Key> {
    var t := Parse(s);
    if t.Some? && Canonical(t.value) then Some(KeyOf(t.value)) else None
  }

  /** A published version may also be a legacy one. */
  function ParsePublishedVersion(s: string): Option<Key> {
    var t := Parse(s);
    if t.Some? then Some(KeyOf(t.value)) else None
  }

  function CompareKeys(x: Key, y: Key): int {
    (if KeyLess(y, x) then 1 else 0) - (if KeyLess(x, y) then 1 else 0)
  }

  /** 1, 0 or -1, or nothing when either side is rejected. */
  function Compare(candidate: string, current: string): Option<int> {
    var x, y := ParseReleaseVersion(candidate), ParsePublishedVersion(current);
    if x.None? || y.None? then None
    else Some(CompareKeys(x.value, y.value))
  }

  /** The script's exit code: 0 only for a strictly newer candidate. */
  function ExitCode(candidate: string, current: string): int {
    match Compare(candidate, current)
    case None => 2
    case Some(ordering) => if ordering <= 0 then 1 else 0
  }

  predicate IsCanonical(s: string) {
    ParseReleaseVersion(s).Some?
  }

  lemma {:induction false} ComparePrinted(x: Tag, y: Tag)
    requires WellFormed(x) && WellFormed(y) && Canonical(x)
    ensures Compare(Print(x), Print(y)) == Some(CompareKeys(KeyOf(x), KeyOf(y)))
  {
    PrintParse(x);
    PrintParse(y);
  }

  /** Two canonical strings with the same fields are the same string. */
  lemma {:induction false} SameFieldsSameString(a: string, b: string, x: Tag, y: Tag)
    requires Parse(a) == Some(x) && Parse(b) == Some(y) && Canonical(x) && Canonical(y)
    ensures KeyOf(x) == KeyOf(y) <==> a == b
  {
    ParseExactly(a, x);
    ParseExactly(b, y);
  }

  lemma {:induction false} CompareParsed(a: string, b: string, x: Tag, y: Tag)
    requires Parse(a) == Some(x) && Parse(b) == Some(y) && Canonical(x)
    ensures Compare(a, b) == Some(CompareKeys(KeyOf(x), KeyOf(y)))
  {
  }

  lemma {:induction false} KeysAreOrdered(x: Key, y: Key, z: Key)
    ensures CompareKeys(y, x) == -CompareKeys(x, y)
    ensures CompareKeys(x, y) == 0 <==> x == y
    ensures CompareKeys(x, y) == 1 && CompareKeys(y, z) == 1 ==> CompareKeys(x, z) == 1
  {
  }

  lemma {:induction false} ParsedOrder(a: string, b: string, c: string, x: Tag, y: Tag, z: Tag)
    requires Parse(a) == Some(x) && Parse(b) == Some(y) && Parse(c) == Some(z)
    requires Canonical(x) && Canonical(y) && Canonical(z)
    ensures Compare(a, b).Some? && Compare(b, a) == Some(-Compare(a, b).value)
    ensures Compare(a, b) == Some(0) <==> a == b
    ensures Compare(a, b) == Some(1) && Compare(b, c) == Some(1) ==> Compare(a, c) == Some(1)
  {
    SameFieldsSameString(a, b, x, y);
    CompareParsed(a, b, x, y);
    CompareParsed(b, a, y, x);
    CompareParsed(b, c, y, z);
    CompareParsed(a, c, x, z);
    KeysAreOrdered(KeyOf(x), KeyOf(y), KeyOf(z));
  }

  /** On canonical tags the comparison is a strict total order: antisymmetric, transitive, and 0 only
      between a tag and itself. */
  lemma {:induction false} CompareIsStrictTotalOrder(a: string, b: string, c: string)
    requires IsCanonical(a) && IsCanonical(b) && IsCanonical(c)
    ensures Compare(a, b).Some? && Compare(b, a) == Some(-Compare(a, b).value)
    ensures Compare(a, b) == Some(0) <==> a == b
    ensures Compare(a, b) == Some(1) && Compare(b, c) == Some(1) ==> Compare(a, c) == Some(1)
  {
    ParsedOrder(a, b, c, Parse(a).value, Parse(b).value, Parse(c).value);
  }

  predicate BaseAtMost(x: Tag, y: Tag) {
    if x.major != y.major then x.major < y.major
    else if x.minor != y.minor then x.minor < y.minor
    else x.patch <= y.patch
  }

  /** Candidates climb towards their release and stay below it. */
  lemma {:induction false} ReleaseLadder(x: Tag, y: Tag)
    requires WellFormed(x) && WellFormed(y) && SameBase(x, y) && x.Candidate? && !y.Legacy?
    ensures Compare(Print(y), Print(x)) == Some(1) <==> y.Release? || y.rc > x.rc
  {
    ComparePrinted(y, x);
  }

  /** A canonical tag is newer than a legacy tag exactly when its base is the same or higher. */
  lemma {:induction false} CanonicalBeatsLegacy(x: Tag, y: Tag)
    requires WellFormed(x) && WellFormed(y) && Canonical(x) && y.Legacy?
    ensures Compare(Print(x), Print(y)) == Some(1) <==> BaseAtMost(y, x)
    ensures ExitCode(Print(x), Print(y)) == 0 <==> BaseAtMost(y, x)
  {
    ComparePrinted(x, y);
  }

  // ---- Precedence in Semantic Versioning 2.0.0, section 11 ----

  /** ASCII order of alphanumeric identifiers. */
  predicate AsciiLess(a: string, b: string) {
    if b == "" then false
    else if a == "" then true
    else if a[0] != b[0] then a[0] < b[0]
    else AsciiLess(a[1..], b[1..])
  }

  predicate SameBase(x: Tag, y: Tag) {
    x.major == y.major && x.minor == y.minor && x.patch == y.patch
  }

  function Word(t: Tag): string {
    if t.Legacy? then t.word else "rc"
  }

  function Number(t: Tag): nat {
    match t
    case Release(_, _, _) => 0
    case Candidate(_, _, _, n) => n
    case Legacy(_, _, _, _, n) => n
  }

  /** Lower precedence: by base, then a pre-release below its release, then identifier by identifier. */
  predicate SemverLess(x: Tag, y: Tag) {
    if !SameBase(x, y) then BaseAtMost(x, y)
    else if x.Release? then false
    else if y.Release? then true
    else if Word(x) != Word(y) then AsciiLess(Word(x), Word(y))
    else Number(x) < Number(y)
  }

  lemma {:induction false} AsciiTotal(a: string, b: string)
    requires a != b
    ensures AsciiLess(a, b) <==> !AsciiLess(b, a)
  {
    if a != "" && b != "" && a[0] == b[0] {
      assert a == [a[0]] + a[1..] && b == [b[0]] + b[1..];
      AsciiTotal(a[1..], b[1..]);
    }
  }

  /** Where the repository's order and the standard's part: a candidate against a legacy tag of the same
      base whose word sorts behind `rc`. */
  predicate Departs(x: Tag, y: Tag) {
    x.Candidate? && y.Legacy? && SameBase(x, y) && AsciiLess("rc", y.word)
  }

  lemma {:induction false} KeysAndSemver(x: Tag, y: Tag)
    requires WellFormed(x) && WellFormed(y) && Canonical(x)
    ensures (CompareKeys(KeyOf(x), KeyOf(y)) == 1 <==> SemverLess(y, x)) <==> !Departs(x, y)
    ensures (CompareKeys(KeyOf(x), KeyOf(y)) == -1 <==> SemverLess(x, y)) <==> !Departs(x, y)
  {
    if y.Legacy? {
      AsciiTotal("rc", y.word);
    }
  }

  /** For every canonical candidate and published tag the comparison is the standard's precedence, except
      exactly where `Departs` says. */
  lemma {:induction false} AgreesWithSemverExactly(x: Tag, y: Tag)
    requires WellFormed(x) && WellFormed(y) && Canonical(x)
    ensures Compare(Print(x), Print(y)).Some?
    ensures (Compare(Print(x), Print(y)) == Some(1) <==> SemverLess(y, x)) <==> !Departs(x, y)
    ensures (Compare(Print(x), Print(y)) == Some(-1) <==> SemverLess(x, y)) <==> !Departs(x, y)
  {
    ComparePrinted(x, y);
    KeysAndSemver(x, y);
  }

  /** The script exits 2 exactly when the candidate is of neither canonical pattern or the current tag of none. */
  lemma {:induction false} RejectedExactly(candidate: string, current: string)
    ensures ExitCode(candidate, current) == 2 <==>
              (!MatchesRelease(candidate) && !MatchesCandidate(candidate))
              || (!MatchesRelease(current) && !MatchesCandidate(current) && !MatchesLegacy(current))
  {
    GrammarsAreDisjoint(candidate);
    GrammarsAreDisjoint(current);
  }

  /** Any other pair exits 0 or 1 by precedence, up to that exception. */
  lemma {:induction false} ExitCodeExactly(x: Tag, y: Tag)
    requires WellFormed(x) && WellFormed(y) && Canonical(x)
    ensures ExitCode(Print(x), Print(y)) == if SemverLess(y, x) || Departs(x, y) then 0 else 1
  {
    AgreesWithSemverExactly(x, y);
    if Departs(x, y) {
      AsciiTotal("rc", y.word);
    }
  }
}
