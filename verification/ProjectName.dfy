/** How two accuracy scripts derive a project name from a path: the same steps in different orders. */
module ProjectName {
  import opened Text

  predicate HasDouble(s: string) {
    Contains(s, "--")
  }

  predicate DoubleAtFront(s: string) {
    |s| >= 2 && s[0] == '-' && s[1] == '-'
  }

  /** `s.replace("--", "-")`: occurrences are taken from the left and do not overlap. */
  function Halve(s: string): (r: string)
    ensures |r| <= |s|
  {
    if |s| < 2 then s
    else if DoubleAtFront(s) then "-" + Halve(s[2..])
    else [s[0]] + Halve(s[1..])
  }

  /** One pass: every dash run becomes a single dash. */
  function Collapse(s: string): string {
    if |s| < 2 then s
    else if DoubleAtFront(s) then Collapse(s[1..])
    else [s[0]] + Collapse(s[1..])
  }

  lemma {:induction false} DoubleInTail(s: string)
    requires |s| >= 2
    ensures HasDouble(s) <==> DoubleAtFront(s) || HasDouble(s[1..])
  {
    if HasDouble(s) {
      var i: nat :| i <= |s| && OccursAt(s, "--", i);
      assert s[i] == s[i..i + 2][0] == '-' && s[i + 1] == s[i..i + 2][1] == '-';
      if i > 0 {
        assert s[1..][i - 1..i + 1] == s[i..i + 2];
        assert OccursAt(s[1..], "--", i - 1);
      }
    }
    if DoubleAtFront(s) {
      assert OccursAt(s, "--", 0);
    }
    if HasDouble(s[1..]) {
      var i: nat :| i <= |s[1..]| && OccursAt(s[1..], "--", i);
      assert s[i + 1..i + 3] == s[1..][i..i + 2];
      assert OccursAt(s, "--", i + 1);
    }
  }

  lemma {:induction false} HalvingShrinks(s: string)
    requires HasDouble(s)
    ensures |Halve(s)| < |s|
    decreases |s|
  {
    if |s| >= 2 && !DoubleAtFront(s) {
      DoubleInTail(s);
      HalvingShrinks(s[1..]);
    }
  }

  /** Halving what follows any character does not change the collapsed result. */
  lemma {:induction false} CollapseAfter(c: char, t: string)
    ensures Collapse([c] + Halve(t)) == Collapse([c] + t)
    decreases |t|
  {
    if |t| >= 2 {
      if DoubleAtFront(t) {
        var r := t[2..];
        CollapseAfter('-', r);
        assert t == "-" + ("-" + r);
        assert ([c] + Halve(t))[1..] == "-" + Halve(r);
        assert ([c] + t)[1..] == t && t[1..] == "-" + r;
        if c != '-' {
          assert Collapse([c] + t) == [c] + Collapse(t);
        }
      } else {
        var d, r := t[0], t[1..];
        CollapseAfter(d, r);
        assert t == [d] + r;
        assert ([c] + Halve(t))[1..] == [d] + Halve(r);
        assert ([c] + t)[1..] == [d] + r;
      }
    }
  }

  lemma {:induction false} HalvingKeepsCollapse(s: string)
    ensures Collapse(Halve(s)) == Collapse(s)
  {
    if |s| >= 2 {
      if DoubleAtFront(s) {
        CollapseAfter('-', s[2..]);
        assert s[1..] == "-" + s[2..];
      } else {
        CollapseAfter(s[0], s[1..]);
        assert s == [s[0]] + s[1..];
      }
    }
  }

  lemma {:induction false} CollapseIsIdentity(s: string)
    requires !HasDouble(s)
    ensures Collapse(s) == s
  {
    if |s| >= 2 {
      DoubleInTail(s);
      CollapseIsIdentity(s[1..]);
    }
  }

  lemma {:induction false} CollapseIsClean(s: string)
    ensures !HasDouble(Collapse(s))
    ensures Collapse(s) != [] <==> s != []
    ensures s != [] ==> Collapse(s)[0] == s[0]
    ensures forall c :: c in Collapse(s) ==> c in s
    decreases |s|
  {
    if |s| >= 2 {
      CollapseIsClean(s[1..]);
      if !DoubleAtFront(s) {
        var r := [s[0]] + Collapse(s[1..]);
        assert r[1..] == Collapse(s[1..]);
        DoubleInTail(r);
      }
    }
  }

  /** The replace-until-stable loop ends, and equals the single pass. */
  method CollapseDashes(s: string) returns (r: string)
    ensures r == Collapse(s)
  {
    r := s;
    while HasDouble(r)
      invariant Collapse(r) == Collapse(s)
      decreases |r|
    {
      HalvingShrinks(r);
      HalvingKeepsCollapse(r);
      r := Halve(r);
    }
    CollapseIsIdentity(r);
  }

  // ---- The two implementations ----

  /** A drive letter, recognised by the colon behind it, is lowered.  `lower` is the host's. */
  function LowerDrive(s: string, lower: char -> string): string {
    if |s| >= 2 && s[1] == ':' then lower(s[0]) + s[1..] else s
  }

  /** All dash runs collapsed and leading dashes dropped, "root" when nothing is left. */
  function Tidy(s: string): string {
    var t := StripLeft(Collapse(s), '-');
    if t == "" then "root" else t
  }

  /** The path as both orders leave it before dashes are collapsed. */
  function Dashed(s: string): string {
    ReplaceChar(ReplaceChar(ReplaceChar(s, '\\', '-'), '/', '-'), ':', '-')
  }

  /** The accuracy comparison's order of steps. */
  function SlashesFirst(path: string, lower: char -> string): string {
    var s := LowerDrive(ReplaceChar(path, '\\', '/'), lower);
    Tidy(ReplaceChar(ReplaceChar(s, '/', '-'), ':', '-'))
  }

  /** The query-semantics check's order of steps. */
  function DriveFirst(path: string, lower: char -> string): string {
    var s := LowerDrive(path, lower);
    Tidy(Dashed(s))
  }

  method SanitizePath(path: string, lower: char -> string) returns (name: string)
    ensures name == SlashesFirst(path, lower)
  {
    var s := ReplaceChar(path, '\\', '/');
    if |s| >= 2 && s[1] == ':' {
      s := lower(s[0]) + s[1..];
    }
    s := ReplaceChar(ReplaceChar(s, '/', '-'), ':', '-');
    s := CollapseDashes(s);
    s := StripLeft(s, '-');
    name := if s == "" then "root" else s;
  }

  method ProjectForPath(path: string, lower: char -> string) returns (name: string)
    ensures name == DriveFirst(path, lower)
  {
    var s := path;
    if |s| >= 2 && s[1] == ':' {
      s := lower(s[0]) + s[1..];
    }
    s := ReplaceChar(ReplaceChar(ReplaceChar(s, '\\', '-'), '/', '-'), ':', '-');
    s := CollapseDashes(s);
    s := StripLeft(s, '-');
    name := if s == "" then "root" else s;
  }

  ghost predicate CleanName(s: string) {
    && s != "" && s[0] != '-'
    && '\\' !in s && '/' !in s && ':' !in s
    && !HasDouble(s)
  }

  lemma {:induction false} StripKeepsClean(s: string)
    requires !HasDouble(s)
    ensures !HasDouble(StripLeft(s, '-'))
    ensures forall c :: c in StripLeft(s, '-') ==> c in s
  {
    if s != [] && s[0] == '-' {
      if |s| >= 2 {
        DoubleInTail(s);
      }
      StripKeepsClean(s[1..]);
    }
  }

  lemma {:induction false} RootIsClean()
    ensures CleanName("root")
  {
    var root := "root";
    forall i: nat | i <= |root| ensures !OccursAt(root, "--", i) {
      if i + 2 <= |root| {
        assert root[i..i + 2][0] == root[i];
      }
    }
  }

  lemma {:induction false} TidyIsClean(s: string)
    requires '\\' !in s && '/' !in s && ':' !in s
    ensures CleanName(Tidy(s))
  {
    CollapseIsClean(s);
    StripKeepsClean(Collapse(s));
    RootIsClean();
  }

  /** What both scripts take for granted: lowering a character neither moves nor makes a separator. */
  ghost predicate KeepsSeparators(lower: char -> string) {
    && lower('/') == "/" && lower('\\') == "\\"
    && forall c :: c != '\\' ==> '\\' !in lower(c)
  }

  lemma {:induction false} SlashesThenDashes(path: string, lower: char -> string)
    requires KeepsSeparators(lower)
    ensures ReplaceChar(ReplaceChar(LowerDrive(ReplaceChar(path, '\\', '/'), lower), '/', '-'), ':', '-')
         == Dashed(LowerDrive(path, lower))
  {
    var slashed := ReplaceChar(path, '\\', '/');
    if |path| >= 2 && path[1] == ':' {
      var early, late := LowerDrive(slashed, lower), LowerDrive(path, lower);
      var head := |lower(path[0])|;
      assert |early| == |late| == head + |path| - 1;
      forall k | 0 <= k < |late|
        ensures ReplaceChar(ReplaceChar(early, '/', '-'), ':', '-')[k] == Dashed(late)[k]
      {
        if k >= head {
          assert late[k] == path[k - head + 1] && early[k] == slashed[k - head + 1];
        } else if path[0] == '\\' {
          assert late[k] == '\\' && early[k] == '/';
        } else {
          assert late[k] == early[k] == lower(path[0])[k];
        }
      }
      assert ReplaceChar(ReplaceChar(early, '/', '-'), ':', '-') == Dashed(late);
    } else {
      assert ReplaceChar(ReplaceChar(slashed, '/', '-'), ':', '-') == Dashed(path);
    }
  }

  /** The two orders of steps agree on every path. */
  lemma {:induction false} ImplementationsAgree(path: string, lower: char -> string)
    requires KeepsSeparators(lower)
    ensures SlashesFirst(path, lower) == DriveFirst(path, lower)
  {
    SlashesThenDashes(path, lower);
  }

  /** Whatever the path, the name is usable as a file name stem. */
  lemma {:induction false} NamesAreClean(path: string, lower: char -> string)
    requires KeepsSeparators(lower)
    ensures CleanName(SlashesFirst(path, lower))
    ensures CleanName(DriveFirst(path, lower))
  {
    ImplementationsAgree(path, lower);
    TidyIsClean(Dashed(LowerDrive(path, lower)));
  }

  lemma {:induction false} CleanIsFixed(s: string, lower: char -> string)
    requires CleanName(s)
    ensures SlashesFirst(s, lower) == s && DriveFirst(s, lower) == s
  {
    assert ReplaceChar(s, '\\', '/') == s == ReplaceChar(s, '/', '-');
    assert ReplaceChar(s, ':', '-') == s == ReplaceChar(s, '\\', '-');
    CollapseIsIdentity(s);
  }

  lemma {:induction false} SanitizingIsIdempotent(path: string, lower: char -> string)
    requires KeepsSeparators(lower)
    ensures SlashesFirst(SlashesFirst(path, lower), lower) == SlashesFirst(path, lower)
    ensures DriveFirst(DriveFirst(path, lower), lower) == DriveFirst(path, lower)
  {
    NamesAreClean(path, lower);
    CleanIsFixed(SlashesFirst(path, lower), lower);
    CleanIsFixed(DriveFirst(path, lower), lower);
  }
}
