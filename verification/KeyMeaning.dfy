/** What the forgiving keys make of a qualified name, in terms of the name itself. */
module KeyMeaning {
  import opened Outcomes
  import opened Text
  import opened EdgeKeys
  import opened EdgeMetrics

  lemma {:induction false} JoinConcat(a: seq<string>, b: seq<string>, c: char)
    requires a != [] && b != []
    ensures Join(a + b, c) == Join(a, c) + [c] + Join(b, c)
  {
    if |a| == 1 {
      JoinCons(a[0], b, c);
      assert a == [a[0]];
    } else {
      JoinConcat(a[1..], b, c);
      assert a + b == [a[0]] + (a[1..] + b);
      JoinCons(a[0], a[1..] + b, c);
      Reassociate(a[0] + [c], Join(a[1..], c), [c], Join(b, c));
    }
  }

  // ----- the suffix key -----

  /** s is the name's last three segments. */
  ghost predicate LastThree(qn: string, s: string) {
    && (exists a, b, c :: '.' !in a && '.' !in b && '.' !in c && s == a + ['.'] + (b + ['.'] + c))
    && (qn == s || exists front :: qn == front + ['.'] + s)
  }

  lemma {:induction false} ThreeParts(a: string, b: string, c: string)
    requires '.' !in a && '.' !in b && '.' !in c
    ensures var s := a + ['.'] + (b + ['.'] + c);
      Split(s, '.') == [a, b, c] && Join([a, b, c], '.') == s
  {
    SplitAppend(a, '.', b + ['.'] + c);
    SplitAppend(b, '.', c);
    assert Split(c, '.') == [c];
    JoinSplit(a + ['.'] + (b + ['.'] + c), '.');
  }

  lemma {:induction false} KeyIsLastThree(qn: string, s: string)
    requires SuffixKey(qn) == Some(s)
    ensures LastThree(qn, s)
  {
    var parts := Split(qn, '.');
    var n := |parts|;
    var a, b, c := parts[n - 3], parts[n - 2], parts[n - 1];
    assert parts[n - 3..] == [a, b, c];
    ThreeParts(a, b, c);
    JoinSplit(qn, '.');
    if n > 3 {
      assert parts == parts[..n - 3] + [a, b, c];
      JoinConcat(parts[..n - 3], [a, b, c], '.');
      assert qn == Join(parts[..n - 3], '.') + ['.'] + s;
    } else {
      assert parts == [a, b, c];
    }
  }

  lemma {:induction false} LastThreeIsKey(qn: string, s: string)
    requires LastThree(qn, s)
    ensures SuffixKey(qn) == Some(s)
  {
    var a, b, c :| '.' !in a && '.' !in b && '.' !in c && s == a + ['.'] + (b + ['.'] + c);
    ThreeParts(a, b, c);
    if qn == s {
      assert [a, b, c][0..] == [a, b, c];
    } else {
      var front :| qn == front + ['.'] + s;
      SplitConcat(front, '.', s);
      assert Split(qn, '.')[|Split(front, '.')|..] == [a, b, c];
    }
  }

  /** The suffix key of a name is its last three segments; a name with fewer has none. */
  lemma {:induction false} SuffixKeyExactly(qn: string, s: string)
    ensures SuffixKey(qn) == Some(s) <==> LastThree(qn, s)
  {
    if SuffixKey(qn) == Some(s) {
      KeyIsLastThree(qn, s);
    }
    if LastThree(qn, s) {
      LastThreeIsKey(qn, s);
    }
  }

  /** An edge keeps its kind, and is compared by both names' last three segments, or not at all. */
  lemma {:induction false} BySuffixExactly(k: Key, l: Key)
    ensures BySuffix(k) == Some(l) <==>
              LastThree(k.caller, l.caller) && LastThree(k.callee, l.callee) && l.kind == k.kind
  {
    SuffixKeyExactly(k.caller, l.caller);
    SuffixKeyExactly(k.callee, l.callee);
  }

  // ----- the `Impl` suffix -----

  /** Nothing, or segments up to and with a dot. */
  predicate UpToDot(front: string) {
    front == "" || front[|front| - 1] == '.'
  }

  lemma {:induction false} FrontParts(front: string, tail: string) returns (before: seq<string>)
    requires UpToDot(front)
    ensures Split(front + tail, '.') == before + Split(tail, '.')
    ensures forall i | 0 <= i < |before| :: '.' !in before[i]
    ensures forall parts: seq<string> | parts != [] :: Join(before + parts, '.') == front + Join(parts, '.')
  {
    if front == "" {
      before := [];
      assert front + tail == tail;
      forall parts: seq<string> | parts != [] ensures Join(before + parts, '.') == front + Join(parts, '.') {
        assert before + parts == parts && front + Join(parts, '.') == Join(parts, '.');
      }
    } else {
      var start := front[..|front| - 1];
      assert front == start + ['.'];
      before := Split(start, '.');
      SplitConcat(start, '.', tail);
      JoinSplit(start, '.');
      forall parts: seq<string> | parts != [] ensures Join(before + parts, '.') == front + Join(parts, '.') {
        JoinConcat(before, parts, '.');
      }
    }
  }

  lemma {:induction false} StrippableMeans(p: string)
    ensures forall x | x != "" && p == x + "Impl" :: Strippable(p) && p[..|p| - 4] == x
    ensures Strippable(p) ==> p[..|p| - 4] != "" && p == p[..|p| - 4] + "Impl"
  {
  }

  lemma {:induction false} ImplAt(front: string, p: string, m: string)
    requires UpToDot(front) && '.' !in p && '.' !in m
    ensures var kept := if Strippable(p) then p[..|p| - 4] else p;
      Impl(front + (p + ['.'] + m)) == front + (kept + ['.'] + m)
  {
    var before := FrontParts(front, p + ['.'] + m);
    var kept := if Strippable(p) then p[..|p| - 4] else p;
    SplitAppend(p, '.', m);
    assert Split(m, '.') == [m];
    assert Split(p + ['.'] + m, '.') == [p] + [m] == [p, m];
    DropImplAt(before, p, m);
    PairJoined(kept, m);
    assert Join(before + [kept, m], '.') == front + Join([kept, m], '.');
  }

  lemma {:induction false} DropImplAt(before: seq<string>, p: string, m: string)
    ensures DropImpl(before + [p, m]) == before + [if Strippable(p) then p[..|p| - 4] else p, m]
  {
    var parts := before + [p, m];
    assert parts[|parts| - 2] == p && |parts| == |before| + 2;
  }

  /** Below any front the last but one segment loses its `Impl` when something stands before it, and nothing
      else changes. */
  lemma {:induction false} ImplExactly(front: string, p: string, m: string)
    requires UpToDot(front) && '.' !in p && '.' !in m
    ensures forall x | x != "" && p == x + "Impl" :: Impl(front + (p + ['.'] + m)) == front + (x + ['.'] + m)
    ensures (forall x | x != "" :: p != x + "Impl") ==> Impl(front + (p + ['.'] + m)) == front + (p + ['.'] + m)
  {
    StrippableMeans(p);
    ImplAt(front, p, m);
  }

  lemma {:induction false} PairJoined(x: string, m: string)
    ensures Join([x, m], '.') == x + ['.'] + m
  {
    JoinCons(x, [m], '.');
    assert [x] + [m] == [x, m];
  }

  /** A name of one segment stays as it is. */
  lemma {:induction false} ImplOfOne(qn: string)
    requires '.' !in qn
    ensures Impl(qn) == qn
  {
    assert Split(qn, '.') == [qn];
  }

  // ----- type parameters -----

  /** The segment is a name with type parameters. */
  predicate Parametrised(part: string, name: string) {
    name != "" && '<' !in name && name + ['<'] <= part && part[|part| - 1] == '>'
  }

  /** A segment loses its type parameters, if it has a name before them. */
  lemma {:induction false} GenericsOfOne(part: string)
    requires '.' !in part
    ensures forall name | Parametrised(part, name) :: Generics(part) == name
    ensures (forall name :: !Parametrised(part, name)) ==> Generics(part) == part
  {
    assert Split(part, '.') == [part];
    assert StripAll([part]) == [StripGenerics(part)];
    forall name | Parametrised(part, name) ensures StripGenerics(part) == name {
      var rest := part[|name| + 1..];
      assert part == name + ['<'] + rest;
      IndexOfAppend(name, '<', rest);
      assert part[|name|] == '<';
      assert part[|part| - 1..] == ">";
    }
    if StripGenerics(part) != part {
      var i := IndexOf(part, '<');
      CutAt(part, i);
      assert part[|part| - 1..][0] == '>';
      assert Parametrised(part, part[..i]);
    }
  }

  /** The rest is segment by segment. */
  lemma {:induction false} GenericsByParts(a: string, b: string)
    ensures Generics(a + ['.'] + b) == Generics(a) + ['.'] + Generics(b)
  {
    SplitConcat(a, '.', b);
    var x, y := Split(a, '.'), Split(b, '.');
    assert StripAll(x + y) == StripAll(x) + StripAll(y);
    JoinConcat(StripAll(x), StripAll(y), '.');
  }

  /** The three other keys rename both names and keep the kind; the canonical one drops suffixes first. */
  lemma {:induction false} RenamedExactly(k: Key)
    ensures ByImpl(k) == Some(Key(Impl(k.caller), Impl(k.callee), k.kind))
    ensures ByGenerics(k) == Some(Key(Generics(k.caller), Generics(k.callee), k.kind))
    ensures ByCanonical(k) == Some(Key(Generics(Impl(k.caller)), Generics(Impl(k.callee)), k.kind))
  {
  }
}
