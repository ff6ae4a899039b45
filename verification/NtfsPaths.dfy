/** Paths: normalising them, and walking them from the root directory. */
module NtfsPaths {
  import opened Wrappers
  import opened NtfsTypes
  import opened NtfsIndex
  import opened NtfsVolume

  // ----- Normalising

  /** Runs of slashes become one slash. */
  function Collapse(s: string, afterSlash: bool): string {
    if s == [] then []
    else if s[0] == '/' && afterSlash then Collapse(s[1..], true)
    else [s[0]] + Collapse(s[1..], s[0] == '/')
  }

  function TrimSlash(s: string): string {
    if |s| > 1 && s[|s| - 1] == '/' then s[..|s| - 1] else s
  }

  function Normalize(path: string): string {
    if path == [] then "/" else TrimSlash(Collapse(path, false))
  }

  method NormalizePath(path: string) returns (result: string)
    ensures result == Normalize(path)
  {
    hide Collapse;
    if path == [] {
      return "/";
    }
    result := [];
    var prevWasSlash, i := false, 0;
    while i < |path|
      invariant i <= |path| && Collapse(path, false) == result + Collapse(path[i..], prevWasSlash)
    {
      var c := path[i];
      CollapseStep(path, i, prevWasSlash, result);
      if c != '/' || !prevWasSlash {
        result := result + [c];
      }
      prevWasSlash, i := c == '/', i + 1;
    }
    CollapseNothing(prevWasSlash);
    assert path[i..] == [] && result + [] == result;
    if |result| > 1 && result[|result| - 1] == '/' {
      result := result[..|result| - 1];
    }
  }

  lemma {:induction false} CollapseNothing(afterSlash: bool)
    ensures Collapse([], afterSlash) == []
  {
  }

  lemma {:induction false} CollapseStep(path: string, i: nat, afterSlash: bool, before: string)
    requires i < |path|
    ensures var c, rest := path[i], Collapse(path[i + 1..], path[i] == '/');
      before + Collapse(path[i..], afterSlash) == (if c != '/' || !afterSlash then before + [c] else before) + rest
  {
  }

  // ----- Components

  /** The parts between slashes; there is always at least one. */
  function Split(s: string): (parts: seq<string>)
    ensures parts != []
  {
    if s == [] then [""]
    else
      var rest := Split(s[1..]);
      if s[0] == '/' then [""] + rest else [[s[0]] + rest[0]] + rest[1..]
  }

  function NonEmpty(parts: seq<string>): seq<string> {
    if parts == [] then [] else (if parts[0] == "" then [] else [parts[0]]) + NonEmpty(parts[1..])
  }

  function Components(path: string): seq<string> {
    NonEmpty(Split(path))
  }

  lemma {:induction false} NonEmptyAppend(a: seq<string>, b: seq<string>)
    ensures NonEmpty(a + b) == NonEmpty(a) + NonEmpty(b)
  {
    if a == [] {
      assert a + b == b;
    } else {
      assert (a + b)[1..] == a[1..] + b;
      NonEmptyAppend(a[1..], b);
    }
  }

  /** The parts of two strings joined by a slash. */
  lemma {:induction false} SplitJoined(a: string, b: string)
    ensures Split(a + "/" + b) == Split(a) + Split(b)
  {
    var s := a + "/" + b;
    if a == [] {
      assert s[1..] == b;
    } else {
      var rest := a[1..] + "/" + b;
      assert s[1..] == rest && s[0] == a[0];
      SplitJoined(a[1..], b);
      PartsJoined(a[0], Split(a[1..]), Split(b));
    }
  }

  /** Prepending a character, or an empty part, to joined parts. */
  lemma PartsJoined(c: char, x: seq<string>, y: seq<string>)
    requires x != []
    ensures [""] + (x + y) == ([""] + x) + y
    ensures [[c] + (x + y)[0]] + (x + y)[1..] == ([[c] + x[0]] + x[1..]) + y
  {
  }

  lemma ComponentsJoined(a: string, b: string)
    ensures Components(a + "/" + b) == Components(a) + Components(b)
  {
    SplitJoined(a, b);
    NonEmptyAppend(Split(a), Split(b));
  }

  lemma {:induction false} SplitNoSlash(name: string)
    requires '/' !in name
    ensures Split(name) == [name]
  {
    if name != [] {
      SplitNoSlash(name[1..]);
      assert [name[0]] + name[1..] == name;
    }
  }

  /** Collapsing slashes changes the first part only by what an earlier slash already ended. */
  lemma {:induction false} CollapseKeepsParts(s: string, afterSlash: bool)
    ensures Split(Collapse(s, afterSlash))[0] == (if afterSlash then FirstPart(s) else Split(s)[0])
    ensures NonEmpty(Split(Collapse(s, afterSlash))) == NonEmpty(Split(s))
    ensures !afterSlash ==> NonEmpty(Split(Collapse(s, afterSlash))[1..]) == NonEmpty(Split(s)[1..])
  {
    if s != [] {
      var c, rest := s[0], s[1..];
      CollapseKeepsParts(rest, c == '/');
      if c == '/' {
        assert ([""] + Split(rest))[1..] == Split(rest);
        if !afterSlash {
          var t := Collapse(rest, true);
          assert ([c] + t)[1..] == t;
          assert ([""] + Split(t))[1..] == Split(t);
        }
      } else {
        var t := Collapse(rest, false);
        assert ([c] + t)[1..] == t;
        PartsOf(c, t);
        PartsOf(c, rest);
        assert [c] + rest == s;
      }
    }
  }

  /** The first part once the slashes in front are gone. */
  function FirstPart(s: string): string {
    if s != [] && s[0] == '/' then FirstPart(s[1..]) else Split(s)[0]
  }

  lemma {:induction false} PartsOf(c: char, t: string)
    requires c != '/'
    ensures Split([c] + t)[0] == [c] + Split(t)[0] && Split([c] + t)[1..] == Split(t)[1..]
    ensures NonEmpty(Split([c] + t)) == [[c] + Split(t)[0]] + NonEmpty(Split(t)[1..])
  {
  }

  /** Normalising a path does not change its components. */
  lemma NormalizeKeepsComponents(path: string)
    ensures Components(Normalize(path)) == Components(path)
  {
    hide Collapse, Split, NonEmpty;
    NoComponents();
    if path != [] {
      CollapseKeepsParts(path, false);
      TrimKeepsComponents(Collapse(path, false));
    }
  }

  lemma NoComponents()
    ensures Components("") == [] && Components("/") == []
  {
  }

  lemma TrimKeepsComponents(s: string)
    ensures Components(TrimSlash(s)) == Components(s)
  {
    hide Components;
    if |s| > 1 && s[|s| - 1] == '/' {
      var t := s[..|s| - 1];
      assert s == t + "/" + "";
      ComponentsJoined(t, "");
      NoComponents();
      assert Components(t) + [] == Components(t);
    }
  }

  // ----- Walking

  /** One component: the directory must be one, hold the name, and the record it leads to be readable. */
  function Enter(v: Volume, current: nat, component: string): Outcome<nat> {
    if component == ".." then Failure(InvalidInput)
    else
      var st :- Stat(v, current);
      if !st.isDirectory then Failure(NotADirectory)
      else
        var data :- IndexData(v, current, st);
        var child :- Lookup(Entries(data), component);
        var _ :- ReadRecord(v, child);
        Success(child)
  }

  function Follow(v: Volume, current: nat, components: seq<string>): Outcome<nat>
    decreases |components|
  {
    if components == [] then Success(current)
    else
      var child :- Enter(v, current, components[0]);
      Follow(v, child, components[1..])
  }

  /** The root directory opens without being read. */
  function Open(v: Volume, path: string): Outcome<nat> {
    var normalized := Normalize(path);
    if normalized == "/" || normalized == [] then Success(ROOT) else Follow(v, ROOT, Components(normalized))
  }

  /** Opening a path walks its components from record 5, the root: how often and where slashes are repeated is
      immaterial. */
  lemma {:induction false} OpenIsFollow(v: Volume, path: string)
    ensures Open(v, path) == Follow(v, 5, Components(path))
  {
    hide Normalize, Components, Enter;
    NormalizeKeepsComponents(path);
    NoComponents();
  }

  lemma {:induction false} FollowAppend(v: Volume, current: nat, a: seq<string>, b: seq<string>)
    ensures Follow(v, current, a + b) ==
            match Follow(v, current, a)
            case Failure(e) => Failure(e)
            case Success(m) => Follow(v, m, b)
    decreases |a|
  {
    hide Enter;
    if a == [] {
      assert a + b == b;
    } else {
      assert (a + b)[1..] == a[1..] + b;
      var child := Enter(v, current, a[0]);
      if child.Success? {
        FollowAppend(v, child.value, a[1..], b);
      }
    }
  }
}
