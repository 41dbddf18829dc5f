/** The master-display parser: a regular expression with five alternatives is matched over a
    string, and the numbers of each group are collected. */
module MasterDisplay {
  import opened Wrappers
  import opened Text
  import opened Decimal
  import opened Scanner

  // ---------------------------------------------------------------- tokens

  datatype Group = Green | Blue | Red | WhitePoint | Luminance

  function Tag(g: Group): string {
    match g
    case Green => "G("
    case Blue => "B("
    case Red => "R("
    case WhitePoint => "WP("
    case Luminance => "L("
  }

  /** One match of the expression: its group and the texts of its two numbers. */
  datatype Match = Match(group: Group, x: string, y: string)

  predicate Numeric(s: string) {
    s != "" && AllDigits(s)
  }

  predicate WellFormed(m: Match) {
    Numeric(m.x) && Numeric(m.y)
  }

  function TextOf(m: Match): string {
    Tag(m.group) + m.x + "," + m.y + ")"
  }

  /** The grammar's side, in its own letters: a group and its two numbers, written at the start of `s`. */
  ghost predicate Spelled(s: string, m: Match) {
    match m.group
    case Green => "G(" + m.x + "," + m.y + ")" <= s
    case Blue => "B(" + m.x + "," + m.y + ")" <= s
    case Red => "R(" + m.x + "," + m.y + ")" <= s
    case WhitePoint => "WP(" + m.x + "," + m.y + ")" <= s
    case Luminance => "L(" + m.x + "," + m.y + ")" <= s
  }

  lemma SpelledIsItsText(s: string, m: Match)
    ensures Spelled(s, m) <==> TextOf(m) <= s
  {
  }

  /** `m` is written at position `i`. */
  ghost predicate TokenAt(s: string, i: nat, m: Match) {
    i <= |s| && WellFormed(m) && Spelled(s[i..], m)
  }

  // ---------------------------------------------------------------- the expression at one position

  /** A greedy `\d*`. */
  function LeadingDigits(s: string): (d: string)
    ensures AllDigits(d) && d <= s && (|d| < |s| ==> !IsDigit(s[|d|]))
  {
    if s == "" || !IsDigit(s[0]) then "" else
    var rest := LeadingDigits(s[1..]);
    assert s == [s[0]] + s[1..];
    [s[0]] + rest
  }

  /** `\d+` followed by the character `end`. */
  function NumberThen(s: string, end: char): (d: Option<string>)
    requires !IsDigit(end)
    ensures d.Some? ==> Numeric(d.value) && d.value + [end] <= s
  {
    var d := LeadingDigits(s);
    if d != "" && |d| < |s| && s[|d|] == end then Some(d) else None
  }

  lemma {:induction false} LeadingDigitsOf(d: string, rest: string)
    requires AllDigits(d) && (rest != "" ==> !IsDigit(rest[0]))
    ensures LeadingDigits(d + rest) == d
  {
    if d == "" {
      assert d + rest == rest;
    } else {
      LeadingDigitsOf(d[1..], rest);
      assert (d + rest)[1..] == d[1..] + rest;
      assert d == [d[0]] + d[1..];
    }
  }

  lemma NumberThenIsComplete(s: string, end: char, d: string)
    requires !IsDigit(end) && Numeric(d) && d + [end] <= s
    ensures NumberThen(s, end) == Some(d)
  {
    var rest := s[|d|..];
    assert s == d + rest && rest[0] == s[|d|] == (d + [end])[|d|] == end;
    LeadingDigitsOf(d, rest);
  }

  lemma Chain(s: string, a: string, b: string, c: string)
    requires a <= s && b <= s[|a|..] && c <= s[|a|..][|b|..]
    ensures a + b + c <= s
  {
    assert s == a + s[|a|..];
    assert s[|a|..] == b + s[|a|..][|b|..];
    assert s == a + b + s[|a|..][|b|..];
  }

  function MatchGroup(s: string, g: Group): (m: Option<Match>) {
    if !(Tag(g) <= s) then None
    else
      var s1 := s[|Tag(g)|..];
      match NumberThen(s1, ',')
      case None => None
      case Some(x) =>
        match NumberThen(s1[|x| + 1..], ')')
        case None => None
        case Some(y) => Some(Match(g, x, y))
  }

  lemma TokenFromParts(s: string, g: Group, x: string, y: string)
    requires Tag(g) <= s && x + "," <= s[|Tag(g)|..] && y + ")" <= s[|Tag(g)|..][|x| + 1..]
    ensures TextOf(Match(g, x, y)) <= s
  {
    var comma, close := x + ",", y + ")";
    assert |comma| == |x| + 1;
    Chain(s, Tag(g), comma, close);
    assert TextOf(Match(g, x, y)) == Tag(g) + comma + close;
  }

  lemma MatchGroupIsSound(s: string, g: Group)
    ensures MatchGroup(s, g).Some? ==>
      var m := MatchGroup(s, g).value; m.group == g && WellFormed(m) && TextOf(m) <= s
  {
    if MatchGroup(s, g).Some? {
      var m := MatchGroup(s, g).value;
      TokenFromParts(s, g, m.x, m.y);
    }
  }

  /** The text of a match, cut where its parts end. */
  lemma PartsOfToken(s: string, tag: string, x: string, y: string)
    requires tag + x + "," + y + ")" <= s
    ensures tag <= s && x + [','] <= s[|tag|..] && y + [')'] <= s[|tag|..][|x| + 1..]
  {
    var tail := s[|tag + x + "," + y + ")"|..];
    assert s == tag + x + "," + y + ")" + tail;
    assert s[|tag|..] == x + [','] + (y + ")" + tail);
    assert s[|tag|..][|x| + 1..] == y + [')'] + tail;
  }

  lemma MatchGroupIsComplete(s: string, m: Match)
    requires WellFormed(m) && TextOf(m) <= s
    ensures MatchGroup(s, m.group) == Some(m)
  {
    PartsOfToken(s, Tag(m.group), m.x, m.y);
    var s1 := s[|Tag(m.group)|..];
    NumberThenIsComplete(s1, ',', m.x);
    NumberThenIsComplete(s1[|m.x| + 1..], ')', m.y);
  }

  /** The order in which the alternatives are written. */
  const ALTERNATIVES := [Green, Blue, Red, WhitePoint, Luminance]

  /** The first alternative that matches at the start of `s`. */
  function MatchFirst(s: string, groups: seq<Group>): Option<Match> {
    if groups == [] then None
    else
      var m := MatchGroup(s, groups[0]);
      if m.Some? then m else MatchFirst(s, groups[1..])
  }

  /** At most one group can match at the start of a string. */
  lemma OneGroupMatches(s: string, m: Match, g: Group)
    requires WellFormed(m) && TextOf(m) <= s && MatchGroup(s, g).Some?
    ensures g == m.group
  {
    assert s[0] == TextOf(m)[0] == Tag(m.group)[0];
    assert s[0] == Tag(g)[0];
  }

  lemma {:induction false} FirstMatchIsTheToken(s: string, groups: seq<Group>, m: Match)
    ensures MatchFirst(s, groups) == Some(m) <==> m.group in groups && WellFormed(m) && TextOf(m) <= s
  {
    if groups == [] {
    } else {
      FirstMatchIsTheToken(s, groups[1..], m);
      var g := groups[0];
      MatchGroupIsSound(s, g);
      if WellFormed(m) && TextOf(m) <= s {
        MatchGroupIsComplete(s, m);
        if MatchGroup(s, g).Some? {
          OneGroupMatches(s, m, g);
        }
      }
    }
  }

  function MatchPrefix(s: string): Option<Match> {
    MatchFirst(s, ALTERNATIVES)
  }

  lemma PrefixMatchesItsText(s: string, m: Match)
    ensures MatchPrefix(s) == Some(m) <==> WellFormed(m) && TextOf(m) <= s
  {
    FirstMatchIsTheToken(s, ALTERNATIVES, m);
    assert m.group in ALTERNATIVES by {
      match m.group
      case Green => assert ALTERNATIVES[0] == Green;
      case Blue => assert ALTERNATIVES[1] == Blue;
      case Red => assert ALTERNATIVES[2] == Red;
      case WhitePoint => assert ALTERNATIVES[3] == WhitePoint;
      case Luminance => assert ALTERNATIVES[4] == Luminance;
    }
  }

  /** The expression matches at the start of a string exactly the tokens of the grammar, with their letters. */
  lemma PrefixMatchesExactlyTokens(s: string, m: Match)
    ensures MatchPrefix(s) == Some(m) <==> WellFormed(m) && Spelled(s, m)
  {
    PrefixMatchesItsText(s, m);
    SpelledIsItsText(s, m);
  }

  // ---------------------------------------------------------------- all matches

  function Recognise(s: string): Option<Hit<Match>> {
    match MatchPrefix(s) case None => None case Some(m) => Some(Hit(m, |TextOf(m)|))
  }

  lemma InteriorCharacter(m: Match, i: nat)
    requires WellFormed(m) && 0 < i < |TextOf(m)|
    ensures IsDigit(TextOf(m)[i]) || TextOf(m)[i] in "(P,)"
  {
    var t, k := TextOf(m), |Tag(m.group)|;
    if i < k {
      assert t[i] == Tag(m.group)[i];
    } else if i < k + |m.x| {
      assert t[i] == m.x[i - k];
    } else if k + |m.x| < i < k + |m.x| + 1 + |m.y| {
      assert t[i] == m.y[i - k - |m.x| - 1];
    }
  }

  lemma RecogniseIsSane()
    ensures Sane(Recognise)
  {
    forall s | Recognise(s).Some? ensures 0 < Recognise(s).value.size <= |s| {
      PrefixMatchesItsText(s, MatchPrefix(s).value);
    }
  }

  lemma TokensDoNotOverlap(s: string, m: Match, i: nat, m': Match)
    requires WellFormed(m) && TextOf(m) <= s && 0 < i < |TextOf(m)|
    ensures !(TextOf(m') <= s[i..])
  {
    InteriorCharacter(m, i);
    assert s[i] == TextOf(m)[i];
    assert TextOf(m') != "" && TextOf(m')[0] == Tag(m'.group)[0];
  }

  /** No token starts inside another, so the scan misses none. */
  lemma RecogniseIsSeparate()
    ensures Separate(Recognise)
  {
    forall s: string, i: nat | Recognise(s).Some? && 0 < i < Recognise(s).value.size <= |s|
      ensures Recognise(s[i..]).None?
    {
      var m := MatchPrefix(s).value;
      PrefixMatchesItsText(s, m);
      if MatchPrefix(s[i..]).Some? {
        PrefixMatchesItsText(s[i..], MatchPrefix(s[i..]).value);
        TokensDoNotOverlap(s, m, i, MatchPrefix(s[i..]).value);
      }
    }
  }

  function Matches(s: string): seq<Found<Match>> {
    RecogniseIsSane();
    FindAll(Recognise, s, 0)
  }

  /** The matches are exactly the tokens written in the string, each at its position. */
  lemma MatchesAreExactlyTheTokens(s: string, i: nat, m: Match)
    ensures Found(i, m) in Matches(s) <==> TokenAt(s, i, m)
  {
    RecogniseIsSane();
    RecogniseIsSeparate();
    ScanIsExact(Recognise, s, i, m);
    if i < |s| {
      PrefixMatchesExactlyTokens(s[i..], m);
    } else if i == |s| {
      SpelledIsItsText(s[i..], m);
      assert TextOf(m) != "";
    }
  }

  // ---------------------------------------------------------------- the numbers of a match

  /** `[^0-9]+` replaced by nothing. */
  function DigitsOnly(s: string): (d: string)
    ensures AllDigits(d)
  {
    if s == "" then "" else DigitsOnly(s[..|s| - 1]) + if IsDigit(s[|s| - 1]) then [s[|s| - 1]] else ""
  }

  function NumbersInString(s: string): Option<int> {
    ParseInt(DigitsOnly(s))
  }

  lemma {:induction false} DigitsOnlyConcat(a: string, b: string)
    ensures DigitsOnly(a + b) == DigitsOnly(a) + DigitsOnly(b)
  {
    if b == "" {
      assert a + b == a;
    } else {
      var n := |b| - 1;
      DigitsOnlyConcat(a, b[..n]);
      assert (a + b)[..|a + b| - 1] == a + b[..n];
    }
  }

  lemma {:induction false} DigitsOnlyOfDigits(d: string)
    requires AllDigits(d)
    ensures DigitsOnly(d) == d
  {
    if d == "" {
    } else {
      DigitsOnlyOfDigits(d[..|d| - 1]);
      assert d == d[..|d| - 1] + [d[|d| - 1]];
    }
  }

  lemma NoDigitsInTag(g: Group)
    ensures DigitsOnly(Tag(g)) == "" && DigitsOnly(")") == ""
  {
    DigitsOnlyConcat([Tag(g)[0]], Tag(g)[1..]);
    if g.WhitePoint? {
      assert "P(" == "P" + "(";
      DigitsOnlyConcat("P", "(");
    }
    assert Tag(g) == [Tag(g)[0]] + Tag(g)[1..];
  }

  lemma {:induction false} SplitAtOnlyComma(left: string, right: string)
    requires ',' !in left && ',' !in right
    ensures Split(left + "," + right, ",") == [left, right]
  {
    var s := left + "," + right;
    assert s[|left|..|left| + 1] == ",";
    assert OccursAt(s, ",", |left|);
    forall i: nat | i < |left| ensures !OccursAt(s, ",", i) {
      assert s[i..i + 1][0] == left[i];
    }
    forall i: nat ensures !OccursAt(right, ",", i) {
      if i < |right| {
        assert right[i..i + 1][0] == right[i];
      }
    }
    assert IndexFrom(s, ",", 0) == Some(|left|) && IndexFrom(right, ",", 0) == None;
    assert s[..|left|] == left && s[|left| + 1..] == right;
    assert Split(right, ",") == [right];
  }

  /** A match splits at its comma into two parts. */
  lemma MatchSplits(m: Match)
    requires WellFormed(m)
    ensures Split(TextOf(m), ",") == [Tag(m.group) + m.x, m.y + ")"]
  {
    var left, right := Tag(m.group) + m.x, m.y + ")";
    assert TextOf(m) == left + "," + right;
    SplitAtOnlyComma(left, right);
  }

  function Number(d: string): Option<int>
    requires Numeric(d)
  {
    if Value(d) <= MAX_INT64 then Some(Value(d)) else None
  }

  lemma DigitsParse(d: string)
    requires Numeric(d)
    ensures ParseInt(d) == Number(d)
  {
    assert IsDigit(d[0]);
  }

  /** Each part holds one number, which is refused when it exceeds 64 bits. */
  lemma PartsHoldNumbers(m: Match)
    requires WellFormed(m)
    ensures NumbersInString(Tag(m.group) + m.x) == Number(m.x)
    ensures NumbersInString(m.y + ")") == Number(m.y)
  {
    NoDigitsInTag(m.group);
    DigitsOnlyConcat(Tag(m.group), m.x);
    DigitsOnlyConcat(m.y, ")");
    DigitsOnlyOfDigits(m.x);
    DigitsOnlyOfDigits(m.y);
    assert "" + m.x == m.x && m.y + "" == m.y;
    DigitsParse(m.x);
    DigitsParse(m.y);
  }

  // ---------------------------------------------------------------- the parser

  datatype Display = Display(red: (int, int), green: (int, int), blue: (int, int), whitePoint: (int, int),
                             luminance: (int, int))

  datatype ParseError = InvalidFormat | BadNumber

  /** Submatch names: the whole match has the empty name. */
  datatype Name = Whole | Named(group: Group)

  const NAMES := [Whole, Named(Green), Named(Blue), Named(Red), Named(WhitePoint), Named(Luminance)]

  /** The submatches of one match: the text under its own name and under the whole, else empty. */
  function Submatch(m: Match, name: Name): string {
    if name == Whole || name == Named(m.group) then TextOf(m) else ""
  }

  function InRange(m: Match): bool
    requires WellFormed(m)
  {
    Value(m.x) <= MAX_INT64 && Value(m.y) <= MAX_INT64
  }

  function Numbers(m: Match): (int, int)
    requires WellFormed(m)
  {
    (Value(m.x), Value(m.y))
  }

  type Results = map<Name, (int, int)>

  /** The collected numbers: each match stores its own under both its names. */
  function Collected(ms: seq<Match>): Results
    requires forall i :: 0 <= i < |ms| ==> WellFormed(ms[i])
  {
    if ms == [] then map[]
    else
      var m := ms[|ms| - 1];
      Collected(ms[..|ms| - 1])[Whole := Numbers(m)][Named(m.group) := Numbers(m)]
  }

  function FromResults(results: Results): Result<Display, ParseError> {
    if |results| != 6 then Failure(InvalidFormat)
    else
      var at := (g: Group) => if Named(g) in results then results[Named(g)] else (0, 0);
      Success(Display(at(Red), at(Green), at(Blue), at(WhitePoint), at(Luminance)))
  }

  function Items(fs: seq<Found<Match>>): (ms: seq<Match>)
    ensures |ms| == |fs| && forall i :: 0 <= i < |ms| ==> ms[i] == fs[i].item
  {
    if fs == [] then [] else Items(fs[..|fs| - 1]) + [fs[|fs| - 1].item]
  }

  lemma MatchesAreWellFormed(s: string)
    ensures forall i :: 0 <= i < |Matches(s)| ==> WellFormed(Matches(s)[i].item)
  {
    forall i | 0 <= i < |Matches(s)| ensures WellFormed(Matches(s)[i].item) {
      var f := Matches(s)[i];
      assert Found(f.pos, f.item) in Matches(s);
      MatchesAreExactlyTheTokens(s, f.pos, f.item);
    }
  }

  ghost function WithNames(results: Results, m: Match, n: nat): Results
    requires n <= |NAMES| && WellFormed(m)
  {
    if n == 0 then results
    else
      var earlier := WithNames(results, m, n - 1);
      if Submatch(m, NAMES[n - 1]) == "" then earlier else earlier[NAMES[n - 1] := Numbers(m)]
  }

  lemma {:induction false} AllNamesDone(results: Results, m: Match)
    requires WellFormed(m)
    ensures WithNames(results, m, |NAMES|) == results[Whole := Numbers(m)][Named(m.group) := Numbers(m)]
  {
    assert TextOf(m) != "";
    var whole := results[Whole := Numbers(m)];
    var both := whole[Named(m.group) := Numbers(m)];
    assert WithNames(results, m, 1) == whole;
    assert WithNames(results, m, 2) == if m.group == Green then both else whole;
    assert WithNames(results, m, 3) == if m.group in [Green, Blue] then both else whole;
    assert WithNames(results, m, 4) == if m.group in [Green, Blue, Red] then both else whole;
    assert WithNames(results, m, 5) == if m.group in [Green, Blue, Red, WhitePoint] then both else whole;
  }

  /** Reading a match, as the loop below does. */
  lemma MatchReads(m: Match)
    requires WellFormed(m)
    ensures var parts := Split(TextOf(m), ",");
      |parts| == 2 && NumbersInString(parts[0]) == Number(m.x) && NumbersInString(parts[1]) == Number(m.y)
    ensures TextOf(m) != ""
  {
    MatchSplits(m);
    PartsHoldNumbers(m);
  }

  /** One submatch: an empty one is passed over. */
  method CollectSubmatch(m: Match, name: Name, before: Results) returns (r: Result<Results, ParseError>)
    requires WellFormed(m)
    ensures r == if Submatch(m, name) == "" then Success(before)
                 else if InRange(m) then Success(before[name := Numbers(m)])
                 else Failure(BadNumber)
  {
    var text := Submatch(m, name);
    if text == "" {
      return Success(before);
    }
    MatchReads(m);
    var coordinateParts := Split(text, ",");
    assert |coordinateParts| == 2;                       // so the source's check of this never fails
    var x := NumbersInString(coordinateParts[0]);
    if x.None? {
      return Failure(BadNumber);
    }
    var y := NumbersInString(coordinateParts[1]);
    if y.None? {
      return Failure(BadNumber);
    }
    r := Success(before[name := (x.value, y.value)]);
  }

  /** The inner loop: the submatches of one match. */
  method CollectSubmatches(m: Match, before: Results) returns (r: Result<Results, ParseError>)
    requires WellFormed(m)
    ensures r == if InRange(m) then Success(before[Whole := Numbers(m)][Named(m.group) := Numbers(m)])
                 else Failure(BadNumber)
  {
    MatchReads(m);
    var results := before;
    for i := 0 to |NAMES|
      invariant i > 0 ==> InRange(m)
      invariant results == WithNames(before, m, i)
    {
      var collected := CollectSubmatch(m, NAMES[i], results);
      if collected.Failure? {
        return collected;
      }
      results := collected.value;
    }
    AllNamesDone(before, m);
    r := Success(results);
  }

  /** What the parser answers for its matches. */
  function Answer(ms: seq<Match>): Result<Display, ParseError>
    requires forall i :: 0 <= i < |ms| ==> WellFormed(ms[i])
  {
    if forall i :: 0 <= i < |ms| ==> InRange(ms[i]) then FromResults(Collected(ms)) else Failure(BadNumber)
  }

  lemma AnswerStops(ms: seq<Match>, n: nat)
    requires (forall i :: 0 <= i < |ms| ==> WellFormed(ms[i])) && n < |ms| && !InRange(ms[n])
    ensures Answer(ms) == Failure(BadNumber)
  {
  }

  lemma CollectOne(ms: seq<Match>, n: nat)
    requires (forall i :: 0 <= i < |ms| ==> WellFormed(ms[i])) && n < |ms|
    ensures Collected(ms[..n + 1]) == Collected(ms[..n])[Whole := Numbers(ms[n])][Named(ms[n].group) := Numbers(ms[n])]
  {
    assert ms[..n + 1][..n] == ms[..n];
  }

  method ParseMasterDisplay(encoded: string) returns (r: Result<Display, ParseError>)
    ensures forall i :: 0 <= i < |Matches(encoded)| ==> WellFormed(Matches(encoded)[i].item)
    ensures r == Answer(Items(Matches(encoded))) == Parse(encoded)
  {
    MatchesAreWellFormed(encoded);
    var matchGroup := Items(Matches(encoded));
    var results: Results := map[];
    for n := 0 to |matchGroup|
      invariant forall i :: 0 <= i < n ==> InRange(matchGroup[i])
      invariant results == Collected(matchGroup[..n])
    {
      var collected := CollectSubmatches(matchGroup[n], results);
      if collected.Failure? {
        AnswerStops(matchGroup, n);
        return Failure(collected.error);
      }
      CollectOne(matchGroup, n);
      results := collected.value;
    }
    assert matchGroup[..|matchGroup|] == matchGroup;
    r := FromResults(results);
  }

  // ---------------------------------------------------------------- what the parser accepts

  ghost predicate Has(ms: seq<Match>, g: Group) {
    exists i :: 0 <= i < |ms| && ms[i].group == g
  }

  /** The last match of a group is the one that counts. */
  ghost predicate LastOf(ms: seq<Match>, g: Group, m: Match) {
    exists i :: 0 <= i < |ms| && ms[i] == m && m.group == g && forall j :: i < j < |ms| ==> ms[j].group != g
  }

  lemma {:induction false} CollectedNames(ms: seq<Match>, g: Group)
    requires forall i :: 0 <= i < |ms| ==> WellFormed(ms[i])
    ensures Named(g) in Collected(ms) <==> Has(ms, g)
    ensures Whole in Collected(ms) <==> ms != []
  {
    if ms == [] {
    } else {
      var n := |ms| - 1;
      CollectedNames(ms[..n], g);
      if Has(ms[..n], g) {
        var i :| 0 <= i < n && ms[..n][i].group == g;
        assert ms[i].group == g;
      }
      if Has(ms, g) && ms[n].group != g {
        var i :| 0 <= i < |ms| && ms[i].group == g;
        assert ms[..n][i].group == g;
      }
    }
  }

  lemma {:induction false} CollectedValue(ms: seq<Match>, g: Group, m: Match)
    requires forall i :: 0 <= i < |ms| ==> WellFormed(ms[i])
    requires LastOf(ms, g, m)
    ensures WellFormed(m) && Named(g) in Collected(ms) && Collected(ms)[Named(g)] == Numbers(m)
  {
    var n := |ms| - 1;
    if ms[n].group == g {
    } else {
      var i :| 0 <= i < |ms| && ms[i] == m && m.group == g && forall j :: i < j < |ms| ==> ms[j].group != g;
      assert ms[..n][i] == m;
      CollectedValue(ms[..n], g, m);
    }
  }

  const ALL_NAMES := {Whole, Named(Green), Named(Blue), Named(Red), Named(WhitePoint), Named(Luminance)}

  lemma EveryNameIsListed(n: Name)
    ensures n in ALL_NAMES
  {
    if n.Named? {
      match n.group case Green => case Blue => case Red => case WhitePoint => case Luminance =>
    }
  }

  lemma SixNames(results: Results)
    ensures |results| == 6 <==> results.Keys == ALL_NAMES
  {
    forall n | n in results ensures n in ALL_NAMES {
      EveryNameIsListed(n);
    }
    var missing := ALL_NAMES - results.Keys;
    assert ALL_NAMES == results.Keys + missing;
    assert |ALL_NAMES| == |results.Keys| + |missing|;
    assert |ALL_NAMES| == 6;
  }

  function At(d: Display, g: Group): (int, int) {
    match g
    case Red => d.red case Green => d.green case Blue => d.blue
    case WhitePoint => d.whitePoint case Luminance => d.luminance
  }

  lemma AnswersExactly(ms: seq<Match>)
    requires forall i :: 0 <= i < |ms| ==> WellFormed(ms[i])
    ensures Answer(ms).Success? <==> (forall g :: Has(ms, g)) && (forall i :: 0 <= i < |ms| ==> InRange(ms[i]))
    ensures Answer(ms).Success? ==>
      forall g, m :: LastOf(ms, g, m) ==> WellFormed(m) && At(Answer(ms).value, g) == Numbers(m)
  {
    var results := Collected(ms);
    SixNames(results);
    forall g ensures Named(g) in results <==> Has(ms, g) {
      CollectedNames(ms, g);
    }
    CollectedNames(ms, Green);
    if forall g :: Has(ms, g) {
      assert Has(ms, Green);
      forall n ensures n in results && n in ALL_NAMES {
        EveryNameIsListed(n);
        if n.Named? {
          assert Has(ms, n.group);
        }
      }
    } else if results.Keys == ALL_NAMES {
      forall g ensures Has(ms, g) {
        EveryNameIsListed(Named(g));
      }
    }
    forall g, m | Answer(ms).Success? && LastOf(ms, g, m)
      ensures WellFormed(m) && At(Answer(ms).value, g) == Numbers(m)
    {
      CollectedValue(ms, g, m);
    }
  }

  /** What the parser answers for a string. */
  function Parse(s: string): Result<Display, ParseError> {
    MatchesAreWellFormed(s);
    Answer(Items(Matches(s)))
  }

  ghost predicate Written(s: string, g: Group) {
    exists i: nat, m :: TokenAt(s, i, m) && m.group == g
  }

  /** `m` is written at `i`, and its group is not written again further on. */
  ghost predicate LastTokenAt(s: string, i: nat, m: Match) {
    TokenAt(s, i, m) && forall j: nat, m' :: TokenAt(s, j, m') && m'.group == m.group ==> j <= i
  }

  lemma TokenIsListed(s: string, i: nat, m: Match) returns (k: nat)
    requires TokenAt(s, i, m)
    ensures k < |Matches(s)| && Matches(s)[k] == Found(i, m)
  {
    MatchesAreExactlyTheTokens(s, i, m);
    k :| 0 <= k < |Matches(s)| && Matches(s)[k] == Found(i, m);
  }

  lemma ListedIsToken(s: string, k: nat)
    requires k < |Matches(s)|
    ensures TokenAt(s, Matches(s)[k].pos, Matches(s)[k].item)
  {
    var f := Matches(s)[k];
    assert Found(f.pos, f.item) in Matches(s);
    MatchesAreExactlyTheTokens(s, f.pos, f.item);
  }

  /** Over all strings: parsing succeeds exactly when every group is written somewhere and every
      number written in any group fits 64 bits. */
  lemma ParsesExactly(s: string)
    ensures Parse(s).Success? <==>
      && (forall g :: Written(s, g))
      && (forall i: nat, m :: TokenAt(s, i, m) ==> InRange(m))
  {
    MatchesAreWellFormed(s);
    var ms := Items(Matches(s));
    AnswersExactly(ms);
    forall g ensures Has(ms, g) <==> Written(s, g) {
      if Has(ms, g) {
        var k :| 0 <= k < |ms| && ms[k].group == g;
        ListedIsToken(s, k);
      }
      if Written(s, g) {
        var i: nat, m :| TokenAt(s, i, m) && m.group == g;
        var k := TokenIsListed(s, i, m);
        assert ms[k].group == g;
      }
    }
    if forall k :: 0 <= k < |ms| ==> InRange(ms[k]) {
      forall i: nat, m | TokenAt(s, i, m) ensures InRange(m) {
        var k := TokenIsListed(s, i, m);
        assert ms[k] == m;
      }
    } else {
      var k :| 0 <= k < |ms| && !InRange(ms[k]);
      ListedIsToken(s, k);
    }
  }

  /** The numbers answered for a group are those written last. */
  lemma LastTokenCounts(s: string, i: nat, m: Match)
    requires Parse(s).Success? && LastTokenAt(s, i, m)
    ensures At(Parse(s).value, m.group) == Numbers(m)
  {
    MatchesAreWellFormed(s);
    var ms := Items(Matches(s));
    AnswersExactly(ms);
    var k := TokenIsListed(s, i, m);
    forall j | k < j < |ms| ensures ms[j].group != m.group {
      ListedIsToken(s, j);
      RecogniseIsSane();
      PositionsAscend(Recognise, s, 0, k, j);
    }
    assert ms[k] == m;
    assert LastOf(ms, m.group, m);
  }

  // ---------------------------------------------------------------- parsing inverts printing

  datatype Item = Item(group: Group, x: nat, y: nat)

  function TokenOf(item: Item): (m: Match)
    ensures WellFormed(m) && m.group == item.group
  {
    Match(item.group, Digits(item.x), Digits(item.y))
  }

  function PrintItem(item: Item): string {
    TextOf(TokenOf(item))
  }

  function Print(items: seq<Item>): string {
    Concatenated(items, PrintItem)
  }

  lemma RecognisePrinted()
    ensures Recognises(Recognise, PrintItem, TokenOf)
  {
    forall item, rest ensures Recognise(PrintItem(item) + rest) == Some(Hit(TokenOf(item), |PrintItem(item)|)) {
      PrefixMatchesItsText(PrintItem(item) + rest, TokenOf(item));
    }
  }

  predicate Fits(item: Item) {
    item.x <= MAX_INT64 && item.y <= MAX_INT64
  }

  ghost predicate Printed(items: seq<Item>, g: Group) {
    exists k :: 0 <= k < |items| && items[k].group == g
  }

  lemma {:induction false} MatchesOfPrint(items: seq<Item>)
    ensures |Matches(Print(items))| == |items|
    ensures forall k :: 0 <= k < |items| ==>
      var m := Items(Matches(Print(items)))[k];
      WellFormed(m) && m.group == items[k].group && Numbers(m) == (items[k].x, items[k].y)
  {
    RecogniseIsSane();
    RecognisePrinted();
    ScanOfConcatenated(Recognise, PrintItem, TokenOf, items, 0);
    forall k | 0 <= k < |items| ensures Numbers(TokenOf(items[k])) == (items[k].x, items[k].y) {
      ValueOfDigits(items[k].x);
      ValueOfDigits(items[k].y);
    }
  }

  /** For every list of printed groups, in any order and with any repetitions: parsing the printed
      text succeeds exactly when all five groups occur and every value fits 64 bits. */
  lemma {:induction false} PrintedTextParsesExactly(items: seq<Item>)
    ensures Parse(Print(items)).Success? <==>
      (forall g :: Printed(items, g)) && (forall k :: 0 <= k < |items| ==> Fits(items[k]))
  {
    MatchesOfPrint(items);
    MatchesAreWellFormed(Print(items));
    var ms := Items(Matches(Print(items)));
    AnswersExactly(ms);
    forall g ensures Has(ms, g) <==> Printed(items, g) {
      if k :| 0 <= k < |items| && items[k].group == g {
        assert ms[k].group == g;
      }
    }
    forall k | 0 <= k < |items| ensures InRange(ms[k]) <==> Fits(items[k]) {
      assert Numbers(ms[k]) == (items[k].x, items[k].y);
    }
  }

  /** And the values answered for a group are those printed last for it. */
  lemma {:induction false} ParseInvertsPrint(items: seq<Item>, k: nat)
    requires Parse(Print(items)).Success?
    requires k < |items| && forall j :: k < j < |items| ==> items[j].group != items[k].group
    ensures At(Parse(Print(items)).value, items[k].group) == (items[k].x, items[k].y)
  {
    MatchesOfPrint(items);
    MatchesAreWellFormed(Print(items));
    var ms := Items(Matches(Print(items)));
    AnswersExactly(ms);
    assert ms[k].group == items[k].group;
    assert LastOf(ms, items[k].group, ms[k]);
  }

  // ---------------------------------------------------------------- the same in the letters of the format

  predicate Value64(v: (int, int)) {
    0 <= v.0 <= MAX_INT64 && 0 <= v.1 <= MAX_INT64
  }

  /** Ten values that the format can carry. */
  predicate Writable(d: Display) {
    Value64(d.green) && Value64(d.blue) && Value64(d.red) && Value64(d.whitePoint) && Value64(d.luminance)
  }

  /** How each group of a display is written. */
  function GroupText(d: Display, g: Group): string
    requires Writable(d)
  {
    match g
    case Green => "G(" + Digits(d.green.0) + "," + Digits(d.green.1) + ")"
    case Blue => "B(" + Digits(d.blue.0) + "," + Digits(d.blue.1) + ")"
    case Red => "R(" + Digits(d.red.0) + "," + Digits(d.red.1) + ")"
    case WhitePoint => "WP(" + Digits(d.whitePoint.0) + "," + Digits(d.whitePoint.1) + ")"
    case Luminance => "L(" + Digits(d.luminance.0) + "," + Digits(d.luminance.1) + ")"
  }

  function DisplayText(d: Display, order: seq<Group>): string
    requires Writable(d)
  {
    if order == [] then "" else GroupText(d, order[0]) + DisplayText(d, order[1..])
  }

  function ItemOf(d: Display, g: Group): Item
    requires Writable(d)
  {
    Item(g, At(d, g).0, At(d, g).1)
  }

  function ItemsOf(d: Display, order: seq<Group>): (items: seq<Item>)
    requires Writable(d)
    ensures |items| == |order| && forall k :: 0 <= k < |order| ==> items[k] == ItemOf(d, order[k])
  {
    if order == [] then [] else [ItemOf(d, order[0])] + ItemsOf(d, order[1..])
  }

  lemma {:induction false} DisplayTextIsPrinted(d: Display, order: seq<Group>)
    requires Writable(d)
    ensures DisplayText(d, order) == Print(ItemsOf(d, order))
  {
    if order == [] {
    } else {
      DisplayTextIsPrinted(d, order[1..]);
      assert ItemsOf(d, order)[1..] == ItemsOf(d, order[1..]);
      assert GroupText(d, order[0]) == PrintItem(ItemOf(d, order[0]));
    }
  }

  lemma {:induction false} LastPlace(order: seq<Group>, g: Group) returns (k: nat)
    requires g in order
    ensures k < |order| && order[k] == g && forall j :: k < j < |order| ==> order[j] != g
  {
    var n := |order| - 1;
    if order[n] == g {
      k := n;
    } else {
      k := LastPlace(order[..n], g);
    }
  }

  lemma {:induction false} AllGroupsPrinted(d: Display, order: seq<Group>)
    requires Writable(d) && forall g :: g in order
    ensures forall g :: Printed(ItemsOf(d, order), g)
    ensures forall k :: 0 <= k < |ItemsOf(d, order)| ==> Fits(ItemsOf(d, order)[k])
  {
    forall g ensures Printed(ItemsOf(d, order), g) {
      var k := LastPlace(order, g);
      assert ItemsOf(d, order)[k].group == g;
    }
  }

  lemma {:induction false} GroupComesBack(d: Display, order: seq<Group>, g: Group)
    requires Writable(d) && g in order && Parse(Print(ItemsOf(d, order))).Success?
    ensures At(Parse(Print(ItemsOf(d, order))).value, g) == At(d, g)
  {
    var k := LastPlace(order, g);
    ParseInvertsPrint(ItemsOf(d, order), k);
  }

  lemma SameValues(d: Display, e: Display)
    requires At(d, Green) == At(e, Green) && At(d, Blue) == At(e, Blue) && At(d, Red) == At(e, Red)
    requires At(d, WhitePoint) == At(e, WhitePoint) && At(d, Luminance) == At(e, Luminance)
    ensures d == e
  {
  }

  /** Ten values, written in the letters of the format in any order of their groups, come back by name. */
  lemma {:induction false} WrittenDisplayComesBack(d: Display, order: seq<Group>)
    requires Writable(d) && forall g :: g in order
    ensures Parse(DisplayText(d, order)) == Success(d)
  {
    DisplayTextIsPrinted(d, order);
    AllGroupsPrinted(d, order);
    PrintedTextParsesExactly(ItemsOf(d, order));
    var answer := Parse(Print(ItemsOf(d, order)));
    GroupComesBack(d, order, Green);
    GroupComesBack(d, order, Blue);
    GroupComesBack(d, order, Red);
    GroupComesBack(d, order, WhitePoint);
    GroupComesBack(d, order, Luminance);
    SameValues(answer.value, d);
  }
}
