/** Small facts about sequences and strings that the other modules share. */
module Collections {

  datatype Option<+T> = None | Some(value: T)

  datatype Result<+T, +E> = Ok(value: T) | Err(error: E)

  ghost predicate NoDup<T>(s: seq<T>) {
    forall i, j :: 0 <= i < j < |s| ==> s[i] != s[j]
  }

  /** The distinct elements of `s`, in the order of their first occurrence: the
      iteration order of a dict that was filled from `s`. */
  function FirstSeen<T(==,!new)>(s: seq<T>): (r: seq<T>)
    ensures NoDup(r)
    ensures forall x :: x in r <==> x in s
  {
    if s == [] then [] else
      var rest := FirstSeen(s[..|s| - 1]);
      var last := s[|s| - 1];
      assert forall x :: x in s <==> x in s[..|s| - 1] || x == last;
      if last in rest then rest else rest + [last]
  }

  /** `a` comes before `b` in `s`. */
  ghost predicate Precedes<T>(s: seq<T>, a: T, b: T) {
    exists i, j :: 0 <= i < j < |s| && s[i] == a && s[j] == b
  }

  lemma PrecedesLonger<T>(s: seq<T>, more: seq<T>, a: T, b: T)
    requires Precedes(s, a, b)
    ensures Precedes(s + more, a, b)
  {
    var i, j :| 0 <= i < j < |s| && s[i] == a && s[j] == b;
    assert (s + more)[i] == a && (s + more)[j] == b;
  }

  /** `a` occurs in `s` before `b` first does. */
  ghost predicate MentionedBefore<T>(s: seq<T>, a: T, b: T) {
    b in s && exists i :: OccursBefore(s, i, a, b)
  }

  ghost predicate OccursBefore<T>(s: seq<T>, i: int, a: T, b: T) {
    0 <= i < |s| && s[i] == a && b !in s[..i + 1]
  }

  lemma MentionedLonger<T>(s: seq<T>, x: T, a: T, b: T)
    ensures MentionedBefore(s + [x], a, b) <==>
              MentionedBefore(s, a, b) || (x == b && a in s && b !in s)
  {
    var t := s + [x];
    forall i | 0 <= i < |s|
      ensures OccursBefore(t, i, a, b) <==> OccursBefore(s, i, a, b)
    {
      assert t[..i + 1] == s[..i + 1];
    }
    assert t[..|s| + 1] == t;
    if MentionedBefore(t, a, b) {
      var i :| OccursBefore(t, i, a, b);
      assert OccursBefore(s, i, a, b);
    }
    if MentionedBefore(s, a, b) {
      var i :| OccursBefore(s, i, a, b);
      assert OccursBefore(t, i, a, b);
    }
    if x == b && a in s && b !in s {
      var i :| 0 <= i < |s| && s[i] == a;
      assert OccursBefore(t, i, a, b);
    }
  }

  lemma PrecedesSnoc<T>(s: seq<T>, x: T, a: T, b: T)
    ensures Precedes(s + [x], a, b) <==> Precedes(s, a, b) || (x == b && a in s)
  {
    var t := s + [x];
    if Precedes(t, a, b) {
      var i, j :| 0 <= i < j < |t| && t[i] == a && t[j] == b;
      assert s[i] == a;
    }
    if Precedes(s, a, b) {
      PrecedesLonger(s, [x], a, b);
    }
    if x == b && a in s {
      var i :| 0 <= i < |s| && s[i] == a;
      assert t[i] == a && t[|s|] == b;
    }
  }

  /** First occurrences keep their order. */
  lemma {:induction false} FirstSeenInOrder<T(!new)>(s: seq<T>, a: T, b: T)
    ensures Precedes(FirstSeen(s), a, b) <==> MentionedBefore(s, a, b)
  {
    if s != [] {
      var init, last := s[..|s| - 1], s[|s| - 1];
      assert s == init + [last];
      FirstSeenInOrder(init, a, b);
      MentionedLonger(init, last, a, b);
      PrecedesSnoc(FirstSeen(init), last, a, b);
    }
  }

  lemma SnocMultiset<T>(s: seq<T>, x: T)
    ensures multiset(s + [x]) == multiset(s) + multiset{x}
  {
  }

  lemma SnocPrefix<T>(s: seq<T>, i: nat)
    requires i < |s|
    ensures s[..i + 1] == s[..i] + [s[i]]
    ensures s[..i + 1][..i] == s[..i]
  {
  }

  lemma NoDupConcat<T>(a: seq<T>, b: seq<T>)
    requires NoDup(a) && NoDup(b)
    requires forall i, j :: 0 <= i < |a| && 0 <= j < |b| ==> a[i] != b[j]
    ensures NoDup(a + b)
  {
  }

  lemma FirstElement<T>(s: seq<T>)
    requires s != []
    ensures exists x :: x in s
  {
    assert s[0] in s;
  }

  /** The characters that Python's strings count as white space. */
  predicate IsSpace(c: char) {
    var n := c as int;
    || 9 <= n <= 13 || 28 <= n <= 32 || n == 133 || n == 160 || n == 5760 || 8192 <= n <= 8202
    || n == 8232 || n == 8233 || n == 8239 || n == 8287 || n == 12288
  }

  /** `s.strip()`. */
  function Strip(s: string): string
    decreases |s|
  {
    if s != [] && IsSpace(s[0]) then Strip(s[1..])
    else if s != [] && IsSpace(s[|s| - 1]) then Strip(s[..|s| - 1])
    else s
  }

  ghost predicate AllSpace(s: string) {
    forall c :: c in s ==> IsSpace(c)
  }

  /** Stripping takes white space off both ends, and all there is. */
  lemma {:induction false} StripTrims(s: string) returns (left: string, right: string)
    ensures s == left + Strip(s) + right && AllSpace(left) && AllSpace(right)
    ensures Strip(s) != "" ==> !IsSpace(Strip(s)[0]) && !IsSpace(Strip(s)[|Strip(s)| - 1])
    decreases |s|
  {
    hide IsSpace;
    left, right := "", "";
    if s != [] && IsSpace(s[0]) {
      left, right := StripTrims(s[1..]);
      left := [s[0]] + left;
    } else if s != [] && IsSpace(s[|s| - 1]) {
      left, right := StripTrims(s[..|s| - 1]);
      right := right + [s[|s| - 1]];
    }
  }
}
