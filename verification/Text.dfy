/** The operations of Go's `strings` package that the stores and parsers lean on. */
module Text {
  import opened Wrappers

  /** `strings.Join`. */
  function Join(parts: seq<string>, sep: string): string {
    if parts == [] then ""
    else if |parts| == 1 then parts[0]
    else parts[0] + sep + Join(parts[1..], sep)
  }

  predicate OccursAt(s: string, sep: string, i: nat) {
    i + |sep| <= |s| && s[i..i + |sep|] == sep
  }

  ghost predicate Contains(s: string, sep: string) {
    exists i: nat :: OccursAt(s, sep, i)
  }

  /** `strings.Index`, searching from `from`; the leftmost occurrence wins. */
  function IndexFrom(s: string, sep: string, from: nat): (r: Option<nat>)
    requires from <= |s|
    ensures r.Some? ==> from <= r.value && OccursAt(s, sep, r.value)
    ensures r.Some? ==> forall i: nat :: from <= i < r.value ==> !OccursAt(s, sep, i)
    ensures r.None? ==> forall i: nat :: from <= i ==> !OccursAt(s, sep, i)
    decreases |s| - from
  {
    if OccursAt(s, sep, from) then Some(from)
    else if from == |s| then None
    else IndexFrom(s, sep, from + 1)
  }

  /** `strings.Split` for a non-empty separator: matches are leftmost and do not overlap. */
  function Split(s: string, sep: string): (pieces: seq<string>)
    requires sep != ""
    ensures pieces != []
  {
    match IndexFrom(s, sep, 0)
    case None => [s]
    case Some(i) => [s[..i]] + Split(s[i + |sep|..], sep)
  }

  lemma {:induction false} JoinSnoc(parts: seq<string>, last: string, sep: string)
    requires parts != []
    ensures Join(parts + [last], sep) == Join(parts, sep) + sep + last
  {
    if |parts| == 1 {
      assert (parts + [last])[1..] == [last];
    } else {
      JoinSnoc(parts[1..], last, sep);
      assert (parts + [last])[1..] == parts[1..] + [last];
      assert Join(parts, sep) + sep + last == parts[0] + sep + (Join(parts[1..], sep) + sep + last);
    }
  }

  /** Joining undoes splitting, whatever the text. */
  lemma {:induction false} JoinOfSplit(s: string, sep: string)
    requires sep != ""
    ensures Join(Split(s, sep), sep) == s
    decreases |s|
  {
    match IndexFrom(s, sep, 0)
    case None =>
    case Some(i) =>
      var rest := s[i + |sep|..];
      JoinOfSplit(rest, sep);
      assert ([s[..i]] + Split(rest, sep))[1..] == Split(rest, sep);
      assert s == s[..i] + s[i..i + |sep|] + rest;
  }

  // ---------------------------------------------------------------- the list separator

  /** What the record codec writes between the elements of a `[]string`. */
  const LIST_SEPARATOR := "%%%"

  ghost predicate Last(x: string, c: char) {
    x != "" && x[|x| - 1] == c
  }

  /** The lists that survive a join and a split on LIST_SEPARATOR: there is at least one
      element, no element contains the separator, and only the last may end in a percent sign. */
  ghost predicate Separable(l: seq<string>) {
    && l != []
    && (forall i :: 0 <= i < |l| ==> !Contains(l[i], LIST_SEPARATOR))
    && (forall i :: 0 <= i < |l| - 1 ==> !Last(l[i], '%'))
  }

  /** An occurrence starting inside an element is the element's own doing. */
  lemma EarlyOccurrence(x: string, rest: string, i: nat)
    requires i < |x| && OccursAt(x + LIST_SEPARATOR + rest, LIST_SEPARATOR, i)
    ensures Contains(x, LIST_SEPARATOR) || Last(x, '%')
  {
    var s := x + LIST_SEPARATOR + rest;
    if i + 3 <= |x| {
      assert x[i..i + 3] == s[i..i + 3];
      assert OccursAt(x, LIST_SEPARATOR, i);
    } else {
      assert s[i..i + 3][|x| - 1 - i] == s[|x| - 1] == x[|x| - 1];
    }
  }

  /** In front of a separator, a separable element hides no earlier occurrence. */
  lemma {:induction false} FirstSeparatorIsTheWrittenOne(x: string, rest: string)
    requires !Contains(x, LIST_SEPARATOR) && !Last(x, '%')
    ensures IndexFrom(x + LIST_SEPARATOR + rest, LIST_SEPARATOR, 0) == Some(|x|)
  {
    var s := x + LIST_SEPARATOR + rest;
    assert OccursAt(s, LIST_SEPARATOR, |x|);
    forall i: nat | i < |x| && OccursAt(s, LIST_SEPARATOR, i)
      ensures false
    {
      EarlyOccurrence(x, rest, i);
    }
  }

  /** Splitting cuts a separable element off what follows it. */
  lemma {:induction false} SplitOfWritten(x: string, rest: string)
    requires !Contains(x, LIST_SEPARATOR) && !Last(x, '%')
    ensures Split(x + LIST_SEPARATOR + rest, LIST_SEPARATOR) == [x] + Split(rest, LIST_SEPARATOR)
  {
    FirstSeparatorIsTheWrittenOne(x, rest);
    var s := x + LIST_SEPARATOR + rest;
    assert s[|x| + 3..] == rest && s[..|x|] == x;
  }

  lemma {:induction false} SplitOfJoin(l: seq<string>)
    requires Separable(l)
    ensures Split(Join(l, LIST_SEPARATOR), LIST_SEPARATOR) == l
  {
    if |l| == 1 {
      assert forall i: nat :: !OccursAt(l[0], LIST_SEPARATOR, i);
    } else {
      SplitOfJoin(l[1..]);
      SplitOfWritten(l[0], Join(l[1..], LIST_SEPARATOR));
      assert l == [l[0]] + l[1..];
    }
  }

  lemma OccursBefore(s: string, i: nat, j: nat)
    requires i <= |s| && OccursAt(s[..i], LIST_SEPARATOR, j)
    ensures j < i && OccursAt(s, LIST_SEPARATOR, j)
  {
    assert s[..i][j..j + 3] == s[j..j + 3];
  }

  lemma OccursOneBefore(s: string, i: nat)
    requires OccursAt(s, LIST_SEPARATOR, i) && Last(s[..i], '%')
    ensures 0 < i && OccursAt(s, LIST_SEPARATOR, i - 1)
  {
    assert s[i..i + 3][0] == s[i] && s[i..i + 3][1] == s[i + 1];
    assert s[i - 1..i + 2] == [s[i - 1], s[i], s[i + 1]] == LIST_SEPARATOR;
  }

  /** The text in front of the leftmost occurrence is clean. */
  lemma PrefixOfFirstOccurrence(s: string, i: nat)
    requires OccursAt(s, LIST_SEPARATOR, i)
    requires Contains(s[..i], LIST_SEPARATOR) || Last(s[..i], '%')
    ensures exists j: nat :: j < i && OccursAt(s, LIST_SEPARATOR, j)
  {
    if Contains(s[..i], LIST_SEPARATOR) {
      var j: nat :| OccursAt(s[..i], LIST_SEPARATOR, j);
      OccursBefore(s, i, j);
    } else {
      OccursOneBefore(s, i);
    }
  }

  /** Whatever is split, the pieces are separable. */
  lemma {:induction false} SplitIsSeparable(s: string)
    ensures Separable(Split(s, LIST_SEPARATOR))
    decreases |s|
  {
    match IndexFrom(s, LIST_SEPARATOR, 0)
    case None =>
    case Some(i) =>
      SplitIsSeparable(s[i + 3..]);
      if Contains(s[..i], LIST_SEPARATOR) || Last(s[..i], '%') {
        PrefixOfFirstOccurrence(s, i);
      }
  }

  /** A list is stored as its elements with three percent signs between them. */
  lemma {:induction false} ListText(l: seq<string>, last: string)
    ensures Join([last], LIST_SEPARATOR) == last
    ensures l != [] ==> Join(l + [last], LIST_SEPARATOR) == Join(l, LIST_SEPARATOR) + "%%%" + last
  {
    if l != [] {
      JoinSnoc(l, last, LIST_SEPARATOR);
    }
  }

  /** A `[]string` comes back from its stored text exactly when it is separable. */
  lemma {:induction false} ListSurvivesExactlyWhenSeparable(l: seq<string>)
    ensures Split(Join(l, LIST_SEPARATOR), LIST_SEPARATOR) == l <==> Separable(l)
  {
    SplitIsSeparable(Join(l, LIST_SEPARATOR));
    if Separable(l) {
      SplitOfJoin(l);
    }
  }
}
