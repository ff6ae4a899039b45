/** Opening by path across a creation: every path that led somewhere still does, and the new file has one. */
module NtfsOpen {
  import opened Wrappers
  import opened Text
  import opened Bytes
  import opened NtfsTypes
  import opened NtfsAttributes
  import opened NtfsIndex
  import opened NtfsDirectory
  import opened NtfsFixups
  import opened NtfsBuild
  import opened NtfsBuiltRecord
  import opened NtfsVolume
  import opened NtfsPaths
  import opened NtfsCreate

  // ----- A good directory says that it is one

  lemma {:induction false} StatKeepsDirectory(s: seq<Byte>, st: NtfsStat, cs: nat)
    requires st.isDirectory && StatFrom(s, st, cs).Success?
    ensures StatFrom(s, st, cs).value.isDirectory
    decreases |s|
  {
    hide NextAttribute, AbsorbData, AbsorbName, ReadU16;
    var n := NextAttribute(s);
    if n.Attribute? {
      AbsorbKeepsDirectory(st, n.code, n.bytes, n.resident, cs);
      StatKeepsDirectory(s[|n.bytes|..], Absorb(st, n.code, n.bytes, n.resident, cs).value, cs);
    }
  }

  lemma AbsorbKeepsDirectory(st: NtfsStat, code: nat, a: seq<Byte>, resident: bool, cs: nat)
    requires st.isDirectory && Absorb(st, code, a, resident, cs).Success?
    ensures Absorb(st, code, a, resident, cs).value.isDirectory
  {
  }

  lemma {:induction false} StatOfDirectory(s: seq<Byte>, st: NtfsStat, cs: nat)
    requires DirAttributes(s) && StatFrom(s, st, cs).Success?
    ensures StatFrom(s, st, cs).value.isDirectory
    decreases |s|
  {
    hide NextAttribute, AbsorbData, AbsorbName, ReadU16, GoodIndex;
    var n := NextAttribute(s);
    var absorbed := Absorb(st, n.code, n.bytes, n.resident, cs);
    if n.code == INDEX_ROOT {
      StatKeepsDirectory(s[|n.bytes|..], absorbed.value, cs);
    } else {
      StatOfDirectory(s[|n.bytes|..], absorbed.value, cs);
    }
  }

  lemma ParentIsDirectory(v: Volume, parent: nat)
    requires GoodParent(v, parent)
    ensures Stat(v, parent).Success? && Stat(v, parent).value.isDirectory
  {
    hide ReadRecord, DirAttributes, StatFrom;
    StatOfDirectory(AttributeList(ReadRecord(v, parent).value), NO_STAT, v.clusterSize);
  }

  // ----- Entering directories before and after

  /** Entering is looking the name up in a directory and reading what it leads to. */
  lemma EnterIsFind(v: Volume, current: nat, component: string, child: nat)
    ensures Enter(v, current, component) == Success(child) <==>
            && component != ".." && Stat(v, current).Success? && Stat(v, current).value.isDirectory
            && Find(v, current, component) == Success(child) && ReadRecord(v, child).Success?
  {
  }

  lemma FindReads(v: Volume, w: Volume, current: nat, name: string)
    requires ReadRecord(w, current) == ReadRecord(v, current) && w.clusterSize == v.clusterSize
    ensures Find(w, current, name) == Find(v, current, name) && Stat(w, current) == Stat(v, current)
  {
  }

  lemma StillReadable(v: Volume, w: Volume, parent: nat, n: nat, name: string, isDirectory: bool, data: seq<Byte>,
                      m: nat)
    requires GoodParent(v, parent) && Created(v, w, parent, n, name, isDirectory, data) && ReadRecord(v, m).Success?
    ensures m != n && ReadRecord(w, m).Success? && (m != parent ==> ReadRecord(w, m) == ReadRecord(v, m))
  {
    hide ReadRecord, OnlySlots, IsFree, GoodRecord, BuildRecord, SameOutside, Stat, NewStat, ParentEntries, NewEntries,
         IndexOfParent;
    FreeOrUsed(v, n);
    if m != parent {
      OtherSlots(v, w, n, parent, m);
    }
  }

  /** A step of a walk that succeeded before a creation leads to the same record after it. */
  lemma EnterStays(v: Volume, w: Volume, parent: nat, n: nat, name: string, isDirectory: bool, data: seq<Byte>,
                   current: nat, component: string)
    requires GoodParent(v, parent) && Created(v, w, parent, n, name, isDirectory, data)
    requires Enter(v, current, component).Success?
    ensures Enter(w, current, component) == Enter(v, current, component)
  {
    hide GoodParent, Enter, Find, Created;
    var child := Enter(v, current, component).value;
    EnterIsFind(v, current, component, child);
    EnterIsFind(w, current, component, child);
    StatReads(v, current);
    StillReadable(v, w, parent, n, name, isDirectory, data, child);
    StillReadable(v, w, parent, n, name, isDirectory, data, current);
    CreatedGeometry(v, w, parent, n, name, isDirectory, data);
    if current == parent {
      ParentIsDirectory(w, parent);
      FindAfterCreate(v, w, parent, n, name, isDirectory, data, component);
    } else {
      FindReads(v, w, current, component);
    }
  }

  lemma StatReads(v: Volume, n: nat)
    ensures Stat(v, n).Success? ==> ReadRecord(v, n).Success?
  {
  }

  lemma CreatedGeometry(v: Volume, w: Volume, parent: nat, n: nat, name: string, isDirectory: bool, data: seq<Byte>)
    requires GoodParent(v, parent) && Created(v, w, parent, n, name, isDirectory, data)
    ensures w.clusterSize == v.clusterSize && GoodParent(w, parent) && ReadRecord(w, n).Success?
  {
    hide GoodParent, OnlySlots, IsFree, BuildRecord, ReadRecord, Stat, ParentEntries, SameOutside;
  }

  lemma {:induction false} FollowStays(v: Volume, w: Volume, parent: nat, n: nat, name: string, isDirectory: bool,
                                       data: seq<Byte>, current: nat, components: seq<string>)
    requires GoodParent(v, parent) && Created(v, w, parent, n, name, isDirectory, data)
    requires Follow(v, current, components).Success?
    ensures Follow(w, current, components) == Follow(v, current, components)
    decreases |components|
  {
    hide GoodParent, Created, Enter;
    if components != [] {
      EnterStays(v, w, parent, n, name, isDirectory, data, current, components[0]);
      FollowStays(v, w, parent, n, name, isDirectory, data, Enter(v, current, components[0]).value, components[1..]);
    }
  }

  /** Every path that opened before a creation opens the same file after it. */
  lemma PathsStay(v: Volume, w: Volume, parent: nat, n: nat, name: string, isDirectory: bool, data: seq<Byte>,
                  path: string)
    requires GoodParent(v, parent) && Created(v, w, parent, n, name, isDirectory, data)
    requires Open(v, path).Success?
    ensures Open(w, path) == Open(v, path)
  {
    hide GoodParent, Created, Follow, Open;
    OpenIsFollow(v, path);
    OpenIsFollow(w, path);
    FollowStays(v, w, parent, n, name, isDirectory, data, ROOT, Components(path));
  }

  /** After a creation in the directory a path leads to, the path extended by the name leads to the new record. */
  lemma {:induction false} NewPathOpens(v: Volume, w: Volume, parent: nat, n: nat, name: string, isDirectory: bool,
                                        data: seq<Byte>, path: string)
    requires GoodParent(v, parent) && Created(v, w, parent, n, name, isDirectory, data)
    requires Lookup(ParentEntries(v, parent), name) == Failure(FileNotFound)
    requires Open(v, path) == Success(parent)
    requires IsAscii(name) && name != "" && name != ".." && '/' !in name
    ensures Open(w, path + "/" + name) == Success(n)
  {
    hide GoodParent, Created, Open, Lookup, ParentEntries, Find, Components;
    PathsStay(v, w, parent, n, name, isDirectory, data, path);
    OpenIsFollow(w, path);
    OpenIsFollow(w, path + "/" + name);
    ComponentsJoined(path, name);
    OneComponent(name);
    FollowAppend(w, ROOT, Components(path), [name]);
    CreateThenUse(v, w, parent, n, name, isDirectory, data);
    CreatedGeometry(v, w, parent, n, name, isDirectory, data);
    ParentIsDirectory(w, parent);
    EnterIsFind(w, parent, name, n);
    assert [name][1..] == [];
  }

  /** For a name without a slash: the extended path opens the new record exactly if the name consists of non-NUL
      ASCII characters, is not empty and is not `..`. */
  lemma {:induction false} NewPathOpensIff(v: Volume, w: Volume, parent: nat, n: nat, name: string, isDirectory: bool,
                                           data: seq<Byte>, path: string)
    requires GoodParent(v, parent) && Created(v, w, parent, n, name, isDirectory, data)
    requires Lookup(ParentEntries(v, parent), name) == Failure(FileNotFound)
    requires Open(v, path) == Success(parent) && '/' !in name
    ensures Open(w, path + "/" + name) == Success(n) <==> IsAscii(name) && name != "" && name != ".."
  {
    hide GoodParent, Created, Open, Lookup, ParentEntries, Components, Enter, IsAscii;
    if IsAscii(name) && name != "" && name != ".." {
      NewPathOpens(v, w, parent, n, name, isDirectory, data, path);
    } else {
      PathsStay(v, w, parent, n, name, isDirectory, data, path);
      NotItsParent(v, w, parent, n, name, isDirectory, data);
      OpenIsFollow(w, path);
      OpenIsFollow(w, path + "/" + name);
      ComponentsJoined(path, name);
      if name == "" {
        NoComponents();
        assert Components(path) + [] == Components(path);
      } else {
        OneComponent(name);
        FollowAppend(w, ROOT, Components(path), [name]);
        StrangeNameNotEntered(v, w, parent, n, name, isDirectory, data);
      }
    }
  }

  lemma NotItsParent(v: Volume, w: Volume, parent: nat, n: nat, name: string, isDirectory: bool, data: seq<Byte>)
    requires GoodParent(v, parent) && Created(v, w, parent, n, name, isDirectory, data)
    ensures n != parent
  {
    hide GoodParent, OnlySlots, IsFree, BuildRecord, ReadRecord, Stat, ParentEntries, SameOutside;
  }

  lemma {:induction false} StrangeNameNotEntered(v: Volume, w: Volume, parent: nat, n: nat, name: string,
                                                 isDirectory: bool, data: seq<Byte>)
    requires GoodParent(v, parent) && Created(v, w, parent, n, name, isDirectory, data)
    requires Lookup(ParentEntries(v, parent), name) == Failure(FileNotFound)
    requires !IsAscii(name) || name == ".."
    ensures Enter(w, parent, name).Failure?
  {
    hide GoodParent, Created, Lookup, ParentEntries, Find, Enter, IsAscii, SameName, ReadBack;
    var entered := Enter(w, parent, name);
    if name == ".." {
      DotDotFails(w, parent);
    } else if entered.Success? {
      EnterIsFind(w, parent, name, entered.value);
      FindAfterCreate(v, w, parent, n, name, isDirectory, data, name);
      FindIsLookup(v, parent, name);
      ShownIsAscii(name);
    }
  }

  lemma {:induction false} FindIsLookup(v: Volume, parent: nat, name: string)
    requires GoodParent(v, parent)
    ensures Find(v, parent, name) == Lookup(ParentEntries(v, parent), name)
  {
    hide GoodParent, ParentEntries, Lookup, DirectoryEntries;
    ReadersAgree(v, parent);
  }

  /** A name that is read back as itself, letter case aside, consists of non-NUL ASCII characters. */
  lemma {:induction false} ShownIsAscii(s: string)
    requires SameName(ReadBack(s), s)
    ensures IsAscii(s)
  {
    if s != [] {
      var u := Utf16(s);
      if 0 < s[0] as int < 128 {
        assert u[1..] == Utf16(s[1..]);
        assert ReadBack(s) == [s[0]] + ReadBack(s[1..]);
        assert forall i | 0 <= i < |s[1..]| :: ReadBack(s[1..])[i] == ReadBack(s)[i + 1] && s[1..][i] == s[i + 1];
        ShownIsAscii(s[1..]);
        assert forall i | 0 < i < |s| :: s[i] == s[1..][i - 1];
      } else if s[0] as int != 0 {
        assert u[0] >= 128;
        assert ReadBack(s)[0] == '?';
        assert Lower(ReadBack(s)[0]) == Lower(s[0]);
      }
    }
  }

  lemma OneComponent(name: string)
    requires '/' !in name && name != ""
    ensures Components(name) == [name]
  {
    SplitNoSlash(name);
    NonEmptyAppend([name], []);
    assert [name][1..] == [] && [name] + [] == [name];
  }

  /** The driver creates a file called `..` if asked to, but no path opens it by that name. */
  lemma DotDotNeverOpens(v: Volume, path: string)
    ensures Open(v, path + "/..").Failure?
  {
    hide Open, Enter, Components;
    OpenIsFollow(v, path + "/..");
    assert path + "/" + ".." == path + "/..";
    ComponentsJoined(path, "..");
    OneComponent("..");
    FollowAppend(v, ROOT, Components(path), [".."]);
    var reached := Follow(v, ROOT, Components(path));
    if reached.Success? {
      DotDotFails(v, reached.value);
    }
  }

  lemma DotDotFails(v: Volume, current: nat)
    ensures Enter(v, current, "..").Failure?
  {
  }
}
