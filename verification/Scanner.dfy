/** Leftmost, non-overlapping matching as a regular-expression library does it, for any matcher
    of string prefixes. */
module Scanner {
  import opened Wrappers

  /** What a matcher recognises at the start of a string, and how long it is. */
  datatype Hit<T> = Hit(item: T, size: nat)

  datatype Found<T> = Found(pos: nat, item: T)

  type Matcher<!T(!new)> = string -> Option<Hit<T>>

  ghost predicate Sane<T(!new)>(matcher: Matcher<T>) {
    forall s :: matcher(s).Some? ==> 0 < matcher(s).value.size <= |s|
  }

  function FindAll<T(!new)>(matcher: Matcher<T>, s: string, at: nat): seq<Found<T>>
    requires Sane(matcher)
    decreases |s|
  {
    if s == "" then []
    else
      match matcher(s)
      case None => FindAll(matcher, s[1..], at + 1)
      case Some(h) => [Found(at, h.item)] + FindAll(matcher, s[h.size..], at + h.size)
  }

  /** How far the scan moves on from the start of a string, and what it finds there. */
  function Advance<T(!new)>(matcher: Matcher<T>, s: string): (n: nat)
    requires Sane(matcher) && s != ""
    ensures 0 < n <= |s|
  {
    if matcher(s).Some? then matcher(s).value.size else 1
  }

  function Here<T(!new)>(matcher: Matcher<T>, s: string, at: nat): seq<Found<T>> {
    if matcher(s).Some? then [Found(at, matcher(s).value.item)] else []
  }

  lemma {:induction false} FindAllUnfolds<T(!new)>(matcher: Matcher<T>, s: string, at: nat)
    requires Sane(matcher) && s != ""
    ensures var n := Advance(matcher, s);
      FindAll(matcher, s, at) == Here(matcher, s, at) + FindAll(matcher, s[n..], at + n)
  {
  }

  lemma ScanStep<T(!new)>(matcher: Matcher<T>, s: string, at: nat, h: Hit<T>)
    requires Sane(matcher) && matcher(s) == Some(h)
    ensures h.size <= |s|
    ensures FindAll(matcher, s, at) == [Found(at, h.item)] + FindAll(matcher, s[h.size..], at + h.size)
  {
  }

  /** No match starts strictly inside another. */
  ghost predicate Separate<T(!new)>(matcher: Matcher<T>) {
    forall s, i: nat :: matcher(s).Some? && 0 < i < matcher(s).value.size <= |s| ==> matcher(s[i..]).None?
  }

  ghost predicate MatchesAt<T(!new)>(matcher: Matcher<T>, s: string, i: nat, item: T) {
    i < |s| && matcher(s[i..]).Some? && matcher(s[i..]).value.item == item
  }

  lemma MatchShifts<T(!new)>(matcher: Matcher<T>, s: string, n: nat, i: nat, item: T)
    requires n <= i && n <= |s|
    ensures MatchesAt(matcher, s, i, item) <==> MatchesAt(matcher, s[n..], i - n, item)
  {
    if i < |s| {
      assert s[n..][i - n..] == s[i..];
    }
  }

  ghost predicate FoundIn<T(!new)>(matcher: Matcher<T>, s: string, at: nat, f: Found<T>) {
    f.pos >= at && MatchesAt(matcher, s, f.pos - at, f.item)
  }

  lemma FoundHere<T(!new)>(matcher: Matcher<T>, s: string, at: nat)
    requires Sane(matcher) && s != "" && Here(matcher, s, at) != []
    ensures FoundIn(matcher, s, at, Here(matcher, s, at)[0])
  {
    assert s[0..] == s;
  }

  lemma FoundLater<T(!new)>(matcher: Matcher<T>, s: string, at: nat, n: nat, f: Found<T>)
    requires n <= |s| && FoundIn(matcher, s[n..], at + n, f)
    ensures FoundIn(matcher, s, at, f)
  {
    MatchShifts(matcher, s, n, f.pos - at, f.item);
  }

  lemma {:induction false} FindAllIsSound<T(!new)>(matcher: Matcher<T>, s: string, at: nat, k: nat)
    requires Sane(matcher) && k < |FindAll(matcher, s, at)|
    ensures FoundIn(matcher, s, at, FindAll(matcher, s, at)[k])
    decreases |s|
  {
    FindAllUnfolds(matcher, s, at);
    var n, h := Advance(matcher, s), |Here(matcher, s, at)|;
    if k < h {
      FoundHere(matcher, s, at);
    } else {
      var rest := FindAll(matcher, s[n..], at + n);
      assert FindAll(matcher, s, at)[k] == rest[k - h];
      FindAllIsSound(matcher, s[n..], at + n, k - h);
      FoundLater(matcher, s, at, n, rest[k - h]);
    }
  }

  lemma {:induction false} FoundAtStart<T(!new)>(matcher: Matcher<T>, s: string, at: nat, item: T)
    requires Sane(matcher) && MatchesAt(matcher, s, 0, item)
    ensures Found(at, item) in FindAll(matcher, s, at)
  {
    assert s[0..] == s;
    FindAllUnfolds(matcher, s, at);
    assert Here(matcher, s, at) == [Found(at, item)];
  }

  lemma FoundFurtherOn<T(!new)>(matcher: Matcher<T>, s: string, at: nat, n: nat, f: Found<T>)
    requires Sane(matcher) && s != "" && n == Advance(matcher, s) && f in FindAll(matcher, s[n..], at + n)
    ensures f in FindAll(matcher, s, at)
  {
    FindAllUnfolds(matcher, s, at);
  }

  lemma NothingIsSkipped<T(!new)>(matcher: Matcher<T>, s: string, i: nat, item: T)
    requires Sane(matcher) && Separate(matcher) && 0 < i && MatchesAt(matcher, s, i, item)
    ensures i >= Advance(matcher, s)
  {
  }

  lemma {:induction false} FindAllIsComplete<T(!new)>(matcher: Matcher<T>, s: string, at: nat, i: nat, item: T)
    requires Sane(matcher) && Separate(matcher) && MatchesAt(matcher, s, i, item)
    ensures Found(at + i, item) in FindAll(matcher, s, at)
    decreases |s|
  {
    if i == 0 {
      FoundAtStart(matcher, s, at, item);
    } else {
      var n := Advance(matcher, s);
      NothingIsSkipped(matcher, s, i, item);
      MatchShifts(matcher, s, n, i, item);
      FindAllIsComplete(matcher, s[n..], at + n, i - n, item);
      FoundFurtherOn(matcher, s, at, n, Found(at + i, item));
    }
  }

  lemma {:induction false} PositionsAscend<T(!new)>(matcher: Matcher<T>, s: string, at: nat, j: nat, k: nat)
    requires Sane(matcher) && j < k < |FindAll(matcher, s, at)|
    ensures FindAll(matcher, s, at)[j].pos < FindAll(matcher, s, at)[k].pos
    decreases |s|
  {
    FindAllUnfolds(matcher, s, at);
    var n, h := Advance(matcher, s), |Here(matcher, s, at)|;
    if j >= h {
      PositionsAscend(matcher, s[n..], at + n, j - h, k - h);
    } else {
      FindAllIsSound(matcher, s[n..], at + n, k - h);
    }
  }

  /** When matches cannot overlap, the scan finds exactly the matching positions, in order. */
  lemma {:induction false} ScanIsExact<T(!new)>(matcher: Matcher<T>, s: string, i: nat, item: T)
    requires Sane(matcher) && Separate(matcher)
    ensures Found(i, item) in FindAll(matcher, s, 0) <==> MatchesAt(matcher, s, i, item)
  {
    if MatchesAt(matcher, s, i, item) {
      FindAllIsComplete(matcher, s, 0, i, item);
    } else if Found(i, item) in FindAll(matcher, s, 0) {
      var k :| 0 <= k < |FindAll(matcher, s, 0)| && FindAll(matcher, s, 0)[k] == Found(i, item);
      FindAllIsSound(matcher, s, 0, k);
    }
  }

  /** The texts of a list of items, one after the other. */
  function Concatenated<I>(items: seq<I>, text: I -> string): string {
    if items == [] then "" else text(items[0]) + Concatenated(items[1..], text)
  }

  /** The matcher recognises the text of every item, whatever follows it. */
  ghost predicate Recognises<I(!new), T(!new)>(matcher: Matcher<T>, text: I -> string, item: I -> T) {
    forall i, rest :: matcher(text(i) + rest) == Some(Hit(item(i), |text(i)|))
  }

  lemma {:induction false} ScanOfFirst<I(!new), T(!new)>(matcher: Matcher<T>, text: I -> string, item: I -> T,
                                                         first: I, rest: string, at: nat)
    requires Sane(matcher) && Recognises(matcher, text, item)
    ensures FindAll(matcher, text(first) + rest, at)
         == [Found(at, item(first))] + FindAll(matcher, rest, at + |text(first)|)
  {
    var t := text(first);
    ScanStep(matcher, t + rest, at, Hit(item(first), |t|));
    assert (t + rest)[|t|..] == rest;
  }

  /** What was found are these items, in their order. */
  ghost predicate Holds<I(!new), T(!new)>(found: seq<Found<T>>, item: I -> T, items: seq<I>) {
    |found| == |items| && forall k :: 0 <= k < |items| ==> found[k].item == item(items[k])
  }

  lemma HoldsOneMore<I(!new), T(!new)>(first: Found<T>, found: seq<Found<T>>, item: I -> T, items: seq<I>)
    requires items != [] && first.item == item(items[0]) && Holds(found, item, items[1..])
    ensures Holds([first] + found, item, items)
  {
    forall k | 1 <= k < |items| ensures ([first] + found)[k].item == item(items[k]) {
      assert items[k] == items[1..][k - 1];
    }
  }

  /** Scanning concatenated texts finds the items back, in order and nothing else. */
  lemma {:induction false} ScanOfConcatenated<I(!new), T(!new)>(matcher: Matcher<T>, text: I -> string,
                                                                item: I -> T, items: seq<I>, at: nat)
    requires Sane(matcher) && Recognises(matcher, text, item)
    ensures Holds(FindAll(matcher, Concatenated(items, text), at), item, items)
  {
    if items == [] {
    } else {
      var rest := Concatenated(items[1..], text);
      ScanOfConcatenated(matcher, text, item, items[1..], at + |text(items[0])|);
      ScanOfFirst(matcher, text, item, items[0], rest, at);
      HoldsOneMore(Found(at, item(items[0])), FindAll(matcher, rest, at + |text(items[0])|), item, items);
    }
  }
}
