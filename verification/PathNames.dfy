/** How an output's file name is taken apart and put together again: path.Ext, path.Base and
    strings.Replace with a count of one. */
module PathNames {
  import opened Wrappers
  import opened Text

  /** The suffix from the last dot after the last slash. */
  function Ext(path: string): (ext: string)
    ensures |ext| <= |path| && path[|path| - |ext|..] == ext
    ensures ext != "" ==> ext[0] == '.'
    ensures '/' !in ext
  {
    ExtFrom(path, |path|)
  }

  function ExtFrom(path: string, i: nat): (ext: string)
    requires i <= |path| && '/' !in path[i..]
    ensures |ext| <= |path| && path[|path| - |ext|..] == ext
    ensures ext != "" ==> ext[0] == '.'
    ensures '/' !in ext
  {
    if i == 0 || path[i - 1] == '/' then ""
    else if path[i - 1] == '.' then (assert path[i - 1..] == ['.'] + path[i..]; path[i - 1..])
    else (assert path[i - 1..] == [path[i - 1]] + path[i..]; ExtFrom(path, i - 1))
  }

  function TrimSlashes(path: string): string {
    if path != "" && path[|path| - 1] == '/' then TrimSlashes(path[..|path| - 1]) else path
  }

  function AfterLastSlash(path: string): (s: string)
    ensures |s| <= |path| && path[|path| - |s|..] == s
  {
    if path == "" || path[|path| - 1] == '/' then ""
    else
      var rest := AfterLastSlash(path[..|path| - 1]);
      assert path == path[..|path| - 1] + [path[|path| - 1]];
      rest + [path[|path| - 1]]
  }

  function Base(path: string): string {
    if path == "" then "."
    else
      var s := AfterLastSlash(TrimSlashes(path));
      if s == "" then "/" else s
  }

  /** The first occurrence of `old'` is removed; removing the empty text removes nothing. */
  function RemoveFirst(s: string, part: string): string {
    if part == "" then s
    else
      match IndexFrom(s, part, 0)
      case None => s
      case Some(k) => s[..k] + s[k + |part|..]
  }

  /** The name under which the provider knows an output. */
  function NameModifier(fileName: string): string {
    RemoveFirst(Base(fileName), Ext(fileName))
  }

  // ---------------------------------------------------------------- what the parts are

  /** The last element of the path starts at `j` and has no dot. */
  ghost predicate NoDotFrom(path: string, j: nat) {
    j <= |path| && '/' !in path[j..] && '.' !in path[j..] && (j == 0 || path[j - 1] == '/')
  }

  lemma {:induction false} ExtFromIsTheLast(path: string, i: nat)
    requires i <= |path| && '/' !in path[i..] && '.' !in path[i..]
    ensures var ext := ExtFrom(path, i);
      && (ext != "" ==> '.' !in ext[1..])
      && (ext == "" ==> exists j: nat :: j <= i && NoDotFrom(path, j))
    decreases i
  {
    if i == 0 || path[i - 1] == '/' {
      assert NoDotFrom(path, i);
    } else if path[i - 1] == '.' {
      assert path[i - 1..] == ['.'] + path[i..];
    } else {
      assert path[i - 1..] == [path[i - 1]] + path[i..];
      ExtFromIsTheLast(path, i - 1);
    }
  }

  /** The extension starts at the last dot after the last slash; without such a dot there is none. */
  lemma {:induction false} ExtIsTheLast(path: string)
    ensures Ext(path) != "" ==> Ext(path)[0] == '.' && '.' !in Ext(path)[1..] && '/' !in Ext(path)
    ensures Ext(path) == "" ==> exists j: nat :: NoDotFrom(path, j)
  {
    ExtFromIsTheLast(path, |path|);
  }

  lemma {:induction false} AfterLastSlashIsLast(path: string)
    ensures var s := AfterLastSlash(path);
      '/' !in s && (|s| == |path| || path[|path| - |s| - 1] == '/')
  {
    if path == "" || path[|path| - 1] == '/' {
    } else {
      AfterLastSlashIsLast(path[..|path| - 1]);
    }
  }

  lemma {:induction false} TrimsOnlySlashes(path: string)
    ensures var t := TrimSlashes(path);
      && t <= path && (forall i :: |t| <= i < |path| ==> path[i] == '/')
      && (t != "" ==> t[|t| - 1] != '/')
  {
    if path != "" && path[|path| - 1] == '/' {
      TrimsOnlySlashes(path[..|path| - 1]);
    }
  }

  /** `base` is a whole element of the path, and nothing but slashes follow it. */
  ghost predicate LastElement(path: string, base: string, start: nat) {
    && base != "" && '/' !in base && start + |base| <= |path|
    && path[start..start + |base|] == base
    && (start == 0 || path[start - 1] == '/')
    && OnlySlashes(path, start + |base|)
  }

  ghost predicate OnlySlashes(path: string, from: nat) {
    forall i :: from <= i < |path| ==> path[i] == '/'
  }

  lemma {:induction false} TrimmedIsSlashes(path: string)
    ensures OnlySlashes(path, |TrimSlashes(path)|) && TrimSlashes(path) <= path
    ensures TrimSlashes(path) != "" ==> path[|TrimSlashes(path)| - 1] != '/'
  {
    TrimsOnlySlashes(path);
  }

  lemma {:induction false} LastOfTrimmed(path: string, t: string, s: string)
    requires t <= path && OnlySlashes(path, |t|) && t != "" && t[|t| - 1] != '/' && s == AfterLastSlash(t)
    ensures s != "" && |s| <= |t| && LastElement(path, s, |t| - |s|)
  {
    AfterLastSlashIsLast(t);
    EndOfStart(path, t, |t| - |s|);
  }

  /** The base name is the last element of the path, whatever slashes follow it; "/" when there are only
      slashes and "." when there is nothing. */
  lemma {:induction false} BaseIsTheLastElement(path: string)
    ensures path == "" ==> Base(path) == "."
    ensures path != "" && OnlySlashes(path, 0) ==> Base(path) == "/"
    ensures !OnlySlashes(path, 0) ==> exists start: nat :: LastElement(path, Base(path), start)
  {
    var t := TrimSlashes(path);
    TrimmedIsSlashes(path);
    if t != "" {
      var s := AfterLastSlash(t);
      LastOfTrimmed(path, t, s);
      assert LastElement(path, Base(path), |t| - |s|);
    }
  }

  lemma EndOfStart(path: string, t: string, start: nat)
    requires t <= path && start <= |t|
    ensures path[start..|t|] == t[start..]
    ensures start > 0 ==> path[start - 1] == t[start - 1]
  {
  }

  // ---------------------------------------------------------------- when a name is put together again

  /** A dot and nothing else special, as every extension the provider knows. */
  predicate Extension(ext: string) {
    |ext| > 1 && ext[0] == '.' && forall i :: 0 < i < |ext| ==> ext[i] != '.'
  }

  predicate Repeats(s: string, ext: string)
    requires ext != ""
    decreases |s|
  {
    s == ext || (ext < s && Repeats(s[|ext|..], ext))
  }

  /** The name's extension is `ext`, and from its first occurrence on the name only repeats it. */
  predicate CarriesExtension(fileName: string, ext: string)
    requires ext != ""
  {
    Ext(fileName) == ext
    && match IndexFrom(Base(fileName), ext, 0)
       case None => false
       case Some(k) => Repeats(Base(fileName)[k..], ext)
  }

  lemma {:induction false} NoSlashStaysInside(path: string, m: nat)
    requires m <= |path| && forall i :: |path| - m <= i < |path| ==> path[i] != '/'
    ensures m <= |AfterLastSlash(path)|
  {
    if m == 0 {
    } else {
      var n := |path| - 1;
      NoSlashStaysInside(path[..n], m - 1);
      assert path[n] != '/';
    }
  }

  lemma ExtEndsBase(path: string)
    requires Ext(path) != ""
    ensures |Ext(path)| <= |Base(path)| && Base(path)[|Base(path)| - |Ext(path)|..] == Ext(path)
  {
    var x := Ext(path);
    assert x[|x| - 1] == path[|path| - |x|..][|x| - 1] == path[|path| - 1];
    assert TrimSlashes(path) == path;
    forall i | |path| - |x| <= i < |path| ensures path[i] != '/' {
      assert path[i] == x[i - (|path| - |x|)];
    }
    NoSlashStaysInside(path, |x|);
    var s := AfterLastSlash(path);
    assert s[|s| - |x|..] == path[|path| - |x|..];
  }

  lemma {:induction false} RepeatsShift(s: string, ext: string)
    requires ext != "" && Repeats(s, ext)
    ensures ext <= s && s[|ext|..] + ext == s
  {
    if s == ext {
    } else {
      var rest := s[|ext|..];
      RepeatsShift(rest, ext);
      assert s == ext + rest && rest == ext + rest[|ext|..];
      calc {
        s;
        ext + (rest[|ext|..] + ext);
        (ext + rest[|ext|..]) + ext;
        rest + ext;
      }
    }
  }

  lemma DotInside(s: string, ext: string)
    requires ext != "" && ext[0] == '.' && ext <= s && s[|ext|..] + ext == s && |ext| < |s| < 2 * |ext|
    ensures ext[2 * |ext| - |s|] == '.'
  {
    var rest := s[|ext|..];
    assert s[|rest|..] == ext;
    assert ext[|ext| - |rest|] == s[|ext|] == rest[0] == s[0] == '.';
  }

  lemma {:induction false} PeriodicRepeats(s: string, ext: string)
    requires Extension(ext) && ext <= s && s[|ext|..] + ext == s
    ensures Repeats(s, ext)
    decreases |s|
  {
    var n := |ext|;
    var rest := s[n..];
    if n <= |rest| {
      assert rest[..n] == s[..n];
      assert rest[n..] + ext == rest by {
        assert (rest + ext)[n..] == rest[n..] + ext;
      }
      PeriodicRepeats(rest, ext);
    } else if rest != "" {
      DotInside(s, ext);
    }
  }

  lemma RemovedWithin(s: string, x: string, k: nat, ext: string)
    requires k + |x| <= |s| && |x| == |ext|
    ensures s[..k] + s[k + |x|..] + ext == s <==> s[k..][|x|..] + ext == s[k..]
  {
    assert s == s[..k] + s[k..] && s[k..][|x|..] == s[k + |x|..];
    assert s[..k] + s[k + |x|..] + ext == s[..k] + (s[k + |x|..] + ext);
    if s[..k] + s[k + |x|..] + ext == s {
      assert (s[..k] + (s[k + |x|..] + ext))[k..] == s[k + |x|..] + ext;
    }
  }

  lemma {:induction false} RemovedIsShorter(base: string, x: string, k: nat)
    requires x != "" && IndexFrom(base, x, 0) == Some(k)
    ensures k + |x| <= |base| && RemoveFirst(base, x) == base[..k] + base[k + |x|..]
    ensures |RemoveFirst(base, x)| + |x| == |base|
  {
  }

  lemma EndsWith(start: string, ext: string, s: string)
    requires start + ext == s
    ensures |start| + |ext| == |s| && s[|s| - |ext|..] == ext
  {
  }

  lemma {:induction false} StartsWhereFound(base: string, x: string, k: nat)
    requires x != "" && IndexFrom(base, x, 0) == Some(k)
    ensures k + |x| <= |base| && x <= base[k..]
  {
  }

  lemma {:induction false} RestoredOnlyIfRepeated(base: string, x: string, ext: string)
    requires Extension(ext) && x != "" && |x| <= |base| && base[|base| - |x|..] == x
    requires RemoveFirst(base, x) + ext == base
    ensures x == ext && IndexFrom(base, ext, 0).Some? && Repeats(base[IndexFrom(base, ext, 0).value..], ext)
  {
    assert OccursAt(base, x, |base| - |x|);
    var k := IndexFrom(base, x, 0).value;
    RemovedIsShorter(base, x, k);
    EndsWith(RemoveFirst(base, x), ext, base);
    assert x == ext;
    RemovedWithin(base, x, k, ext);
    StartsWhereFound(base, x, k);
    PeriodicRepeats(base[k..], ext);
  }

  lemma {:induction false} RestoredIfShifted(base: string, ext: string, k: nat)
    requires ext != "" && IndexFrom(base, ext, 0) == Some(k) && base[k..][|ext|..] + ext == base[k..]
    ensures RemoveFirst(base, ext) + ext == base
  {
    assert RemoveFirst(base, ext) == base[..k] + base[k + |ext|..];
    RemovedWithin(base, ext, k, ext);
  }

  /** Name and extension give the base name back exactly when the name carries the extension. */
  lemma NameRestoredExactly(fileName: string, ext: string)
    requires Extension(ext)
    ensures NameModifier(fileName) + ext == Base(fileName) <==> CarriesExtension(fileName, ext)
  {
    var base, x := Base(fileName), Ext(fileName);
    if x != "" {
      ExtEndsBase(fileName);
      if NameModifier(fileName) + ext == base {
        RestoredOnlyIfRepeated(base, x, ext);
      }
      if CarriesExtension(fileName, ext) {
        var k := IndexFrom(base, ext, 0).value;
        RepeatsShift(base[k..], ext);
        RestoredIfShifted(base, ext, k);
      }
    }
  }

  lemma {:induction false} OnlyAtEnd(base: string, ext: string)
    requires ext != "" && |ext| <= |base| && base[|base| - |ext|..] == ext
    requires forall i: nat :: OccursAt(base, ext, i) ==> i == |base| - |ext|
    ensures IndexFrom(base, ext, 0) == Some(|base| - |ext|)
  {
    assert OccursAt(base, ext, |base| - |ext|);
  }

  /** In particular when the extension occurs in the base name only at its end. */
  lemma OnlyAtEndCarries(fileName: string, ext: string)
    requires ext != "" && Ext(fileName) == ext
    requires forall i: nat :: OccursAt(Base(fileName), ext, i) ==> i == |Base(fileName)| - |ext|
    ensures CarriesExtension(fileName, ext)
  {
    ExtEndsBase(fileName);
    OnlyAtEnd(Base(fileName), ext);
  }
}
