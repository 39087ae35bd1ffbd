/** The functions of Go's strings package that the gateway's protocol rests on, with
    the laws the proofs need. A string is a sequence of characters; lengths are compared
    only between prefixes of one text. */
module GoStrings {

  predicate HasPrefix(s: string, p: string) { p <= s }

  predicate HasSuffix(s: string, t: string) { |t| <= |s| && s[|s| - |t|..] == t }

  function TrimPrefix(s: string, p: string): string {
    if HasPrefix(s, p) then s[|p|..] else s
  }

  function TrimSuffix(s: string, t: string): string {
    if HasSuffix(s, t) then s[..|s| - |t|] else s
  }

  predicate OccursAt(s: string, t: string, i: nat) {
    i + |t| <= |s| && s[i..i + |t|] == t
  }

  predicate Contains(s: string, t: string) {
    exists i: nat :: i <= |s| && OccursAt(s, t, i)
  }

  function Split(s: string, sep: char): (parts: seq<string>)
    ensures parts != []
  {
    if s == "" then [""]
    else
      var rest := Split(s[1..], sep);
      if s[0] == sep then [""] + rest else [[s[0]] + rest[0]] + rest[1..]
  }

  function Join(parts: seq<string>, sep: char): string {
    if parts == [] then ""
    else if |parts| == 1 then parts[0]
    else parts[0] + [sep] + Join(parts[1..], sep)
  }

  /** unicode.IsSpace. */
  predicate IsSpace(c: char) {
    || '\t' <= c <= '\r'
    || c == ' '
    || c == '\U{0085}' || c == '\U{00A0}' || c == '\U{1680}'
    || '\U{2000}' <= c <= '\U{200A}'
    || c == '\U{2028}' || c == '\U{2029}' || c == '\U{202F}' || c == '\U{205F}' || c == '\U{3000}'
  }

  function TrimLeft(s: string): string {
    if s != "" && IsSpace(s[0]) then TrimLeft(s[1..]) else s
  }

  function TrimRight(s: string): string {
    if s != "" && IsSpace(s[|s| - 1]) then TrimRight(s[..|s| - 1]) else s
  }

  function TrimSpace(s: string): string {
    TrimRight(TrimLeft(s))
  }

  /** Splitting undoes joining when no part holds the separator. */
  lemma {:induction false} SplitJoin(parts: seq<string>, sep: char)
    requires parts != [] && forall p :: p in parts ==> sep !in p
    ensures Split(Join(parts, sep), sep) == parts
  {
    if |parts| == 1 {
      SplitWhole(parts[0], sep);
      assert parts == [parts[0]];
    } else {
      SplitFirst(parts[0], Join(parts[1..], sep), sep);
      SplitJoin(parts[1..], sep);
      assert parts == [parts[0]] + parts[1..];
    }
  }

  /** Joining undoes splitting, and no part holds the separator. */
  lemma {:induction false} JoinSplit(s: string, sep: char)
    ensures Join(Split(s, sep), sep) == s
    ensures forall p :: p in Split(s, sep) ==> sep !in p
  {
    if s != "" {
      JoinSplit(s[1..], sep);
      var rest := Split(s[1..], sep);
      assert s == [s[0]] + s[1..];
      if s[0] == sep {
        assert ([""] + rest)[1..] == rest;
      } else {
        var parts := [[s[0]] + rest[0]] + rest[1..];
        assert parts[1..] == rest[1..];
        assert rest[0] in rest;
        assert |rest| > 1 ==> parts[0] + [sep] + Join(parts[1..], sep) == [s[0]] + (rest[0] + [sep] + Join(rest[1..], sep));
      }
    }
  }

  predicate AllSpace(s: string) { forall c :: c in s ==> IsSpace(c) }

  /** TrimSpace removes white space at both ends, all of it, and nothing else. */
  lemma TrimSpaceMeans(s: string)
    ensures exists before, after :: AllSpace(before) && AllSpace(after) && s == before + TrimSpace(s) + after
    ensures var t := TrimSpace(s);
            t == "" || (!IsSpace(t[0]) && !IsSpace(t[|t| - 1]))
  {
    var before := TrimLeftMeans(s);
    var after := TrimRightMeans(TrimLeft(s));
    assert s == before + TrimSpace(s) + after;
    if TrimSpace(s) != "" {
      assert TrimSpace(s)[0] == TrimLeft(s)[0];
    }
  }

  lemma {:induction false} TrimLeftMeans(s: string) returns (before: string)
    ensures AllSpace(before) && s == before + TrimLeft(s)
    ensures TrimLeft(s) == "" || !IsSpace(TrimLeft(s)[0])
  {
    before := "";
    if s != "" && IsSpace(s[0]) {
      before := TrimLeftMeans(s[1..]);
      before := [s[0]] + before;
    }
  }

  lemma {:induction false} TrimRightMeans(s: string) returns (after: string)
    ensures AllSpace(after) && s == TrimRight(s) + after
    ensures TrimRight(s) == "" || !IsSpace(TrimRight(s)[|TrimRight(s)| - 1])
  {
    after := "";
    if s != "" && IsSpace(s[|s| - 1]) {
      after := TrimRightMeans(s[..|s| - 1]);
      after := after + [s[|s| - 1]];
    }
  }

  lemma {:induction false} SplitWhole(s: string, sep: char)
    requires sep !in s
    ensures Split(s, sep) == [s]
  {
    if s != "" {
      SplitWhole(s[1..], sep);
      assert s == [s[0]] + s[1..];
    }
  }

  lemma {:induction false} SplitFirst(s: string, rest: string, sep: char)
    requires sep !in s
    ensures Split(s + [sep] + rest, sep) == [s] + Split(rest, sep)
  {
    var whole := s + [sep] + rest;
    if s == "" {
      assert whole[1..] == rest;
    } else {
      assert whole[1..] == s[1..] + [sep] + rest;
      SplitFirst(s[1..], rest, sep);
      assert s == [s[0]] + s[1..];
    }
  }

  lemma {:induction false} JoinAppend(parts: seq<string>, p: string, sep: char)
    requires parts != []
    ensures Join(parts + [p], sep) == Join(parts, sep) + [sep] + p
  {
    if |parts| == 1 {
      assert (parts + [p])[1..] == [p];
    } else {
      assert (parts + [p])[1..] == parts[1..] + [p];
      JoinAppend(parts[1..], p, sep);
    }
  }

  /** A non-empty text without the separator occurs in a joined pair exactly when it
      occurs in one of the two. */
  lemma ContainsAcross(a: string, b: string, sep: char, t: string)
    requires t != "" && sep !in t
    ensures Contains(a + [sep] + b, t) <==> Contains(a, t) || Contains(b, t)
  {
    var whole := a + [sep] + b;
    if Contains(whole, t) {
      var i: nat :| i <= |whole| && OccursAt(whole, t, i);
      OccurrenceChars(whole, t, i);
      assert whole[|a|] == sep;
      if i + |t| <= |a| {
        assert whole[i..i + |t|] == a[i..i + |t|];
        assert OccursAt(a, t, i);
      } else {
        assert whole[i..i + |t|] == b[i - |a| - 1..i - |a| - 1 + |t|];
        assert OccursAt(b, t, i - |a| - 1);
      }
    }
    if Contains(a, t) {
      ContainsAppend(a, [sep] + b, t);
      assert a + ([sep] + b) == whole;
    }
    if Contains(b, t) {
      ContainsPrepend(a + [sep], b, t);
    }
  }

  lemma OccurrenceChars(s: string, t: string, i: nat)
    requires OccursAt(s, t, i)
    ensures forall k :: i <= k < i + |t| ==> s[k] in t
  {
    assert forall k :: i <= k < i + |t| ==> s[i..i + |t|][k - i] == s[k];
  }

  lemma ContainsAppend(s: string, after: string, t: string)
    requires Contains(s, t)
    ensures Contains(s + after, t)
  {
    var i: nat :| i <= |s| && OccursAt(s, t, i);
    assert (s + after)[i..i + |t|] == s[i..i + |t|];
    assert OccursAt(s + after, t, i);
  }

  lemma ContainsPrepend(before: string, s: string, t: string)
    requires Contains(s, t)
    ensures Contains(before + s, t)
  {
    var i: nat :| i <= |s| && OccursAt(s, t, i);
    assert (before + s)[|before| + i..|before| + i + |t|] == s[i..i + |t|];
    assert OccursAt(before + s, t, |before| + i);
  }

  lemma ContainsSelf(s: string)
    ensures Contains(s, s)
  {
    assert OccursAt(s, s, 0);
  }

  lemma {:induction false} ContainsJoin(parts: seq<string>, sep: char, t: string)
    requires t != "" && sep !in t
    ensures Contains(Join(parts, sep), t) <==> exists k :: 0 <= k < |parts| && Contains(parts[k], t)
  {
    if |parts| > 1 {
      var rest := parts[1..];
      ContainsAcross(parts[0], Join(rest, sep), sep, t);
      ContainsJoin(rest, sep, t);
      if k :| 0 <= k < |rest| && Contains(rest[k], t) {
        assert Contains(parts[k + 1], t);
      }
      if k :| 0 <= k < |parts| && Contains(parts[k], t) {
        assert k > 0 ==> Contains(rest[k - 1], t);
      }
    }
  }
}
