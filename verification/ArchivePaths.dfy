/** The path columns of imported nodes: absolute, normalized, built one component at a time. */
module ArchivePaths {
  import opened ArchiveNames
  import opened Sequences

  function SplitSlash(s: string): (r: seq<string>)
    ensures r != []
  {
    if s == [] then [""]
    else
      var rest := SplitSlash(s[1..]);
      if s[0] == '/' then [""] + rest else [[s[0]] + rest[0]] + rest[1..]
  }

  predicate Kept(part: string) {
    part != "" && part != "."
  }

  function KeptParts(parts: seq<string>): seq<string> {
    if parts == [] then []
    else if Kept(parts[0]) then [parts[0]] + KeptParts(parts[1..])
    else KeptParts(parts[1..])
  }

  function JoinSlash(parts: seq<string>): string {
    if parts == [] then "" else if |parts| == 1 then parts[0]
    else JoinSlash(parts[..|parts| - 1]) + "/" + parts[|parts| - 1]
  }

  /** `folderPath`: a folder location as "/" or "/a/b", repairing relative and dotted forms. */
  function FolderPath(p: string): string {
    "/" + JoinSlash(KeptParts(SplitSlash(p)))
  }

  /** Absolute, without empty or dotted parts: what `folderPath` and `posix.join` both leave alone. */
  predicate Normal(p: string) {
    FolderPath(p) == p && ".." !in KeptParts(SplitSlash(p))
  }

  /** The location of a folder's children, with its trailing slash. */
  function ParentPath(dir: string): string {
    var base := FolderPath(dir);
    if base == "/" then "/" else base + "/"
  }

  /** One path component that `posix.join` leaves alone. */
  predicate Component(leaf: string) {
    leaf != "" && leaf != "." && leaf != ".." && NoSlash(leaf)
  }

  /** `posix.join(folderPath(dir), leaf)` for such a component and a folder without ".." parts. */
  function FilePath(dir: string, leaf: string): string
    requires Component(leaf)
  {
    ParentPath(dir) + leaf
  }

  lemma {:induction false} SplitLeaf(leaf: string)
    requires NoSlash(leaf)
    ensures SplitSlash(leaf) == [leaf]
    decreases leaf
  {
    if leaf != [] {
      SplitLeaf(leaf[1..]);
      assert leaf[0] in leaf && [leaf[0]] + leaf[1..] == leaf;
    }
  }

  lemma {:induction false} SplitAppend(p: string, leaf: string)
    requires NoSlash(leaf)
    ensures SplitSlash(p + "/" + leaf) == SplitSlash(p) + [leaf]
    decreases p
  {
    if p == [] {
      SplitLeaf(leaf);
      assert (p + "/" + leaf)[1..] == leaf;
    } else {
      assert (p + "/" + leaf)[1..] == p[1..] + "/" + leaf;
      SplitAppend(p[1..], leaf);
    }
  }

  lemma {:induction false} KeptAppend(parts: seq<string>, leaf: string)
    requires Kept(leaf)
    ensures KeptParts(parts + [leaf]) == KeptParts(parts) + [leaf]
    decreases parts
  {
    if parts == [] {
      Single(leaf);
    } else {
      assert (parts + [leaf])[1..] == parts[1..] + [leaf];
      KeptAppend(parts[1..], leaf);
    }
  }

  lemma JoinAppend(parts: seq<string>, leaf: string)
    ensures JoinSlash(parts + [leaf]) == if parts == [] then leaf else JoinSlash(parts) + "/" + leaf
  {
    LastOf(parts, leaf);
  }

  lemma PartsAppend(p: string, leaf: string)
    requires Component(leaf)
    ensures KeptParts(SplitSlash(p + "/" + leaf)) == KeptParts(SplitSlash(p)) + [leaf]
  {
    SplitAppend(p, leaf);
    KeptAppend(SplitSlash(p), leaf);
  }

  /** The parts of a normal path, one more component at a time. */
  lemma PartsOfChild(p: string, leaf: string)
    requires Component(leaf)
    ensures FolderPath(p + "/" + leaf)
         == if KeptParts(SplitSlash(p)) == [] then "/" + leaf else FolderPath(p) + "/" + leaf
  {
    var parts := KeptParts(SplitSlash(p));
    PartsAppend(p, leaf);
    JoinAppend(parts, leaf);
    Associative("/", JoinSlash(parts), "/" + leaf);
    Associative(JoinSlash(parts), "/", leaf);
    Associative("/" + JoinSlash(parts), "/", leaf);
  }

  lemma {:induction false} NoPartsMeansRoot(parts: seq<string>)
    requires parts != [] && forall i :: 0 <= i < |parts| ==> Kept(parts[i])
    ensures JoinSlash(parts) != ""
  {
  }

  lemma {:induction false} KeptPartsKept(parts: seq<string>)
    ensures forall i :: 0 <= i < |KeptParts(parts)| ==> Kept(KeptParts(parts)[i])
    decreases parts
  {
    if parts != [] { KeptPartsKept(parts[1..]); }
  }

  /** A child of a normal folder path is normal and extends it by exactly its component. */
  lemma ChildPathsExtend(dir: string, leaf: string)
    requires Normal(dir) && Component(leaf)
    ensures Normal(FilePath(dir, leaf))
    ensures FilePath(dir, leaf) == (if dir == "/" then "" else dir) + "/" + leaf
  {
    var parts := KeptParts(SplitSlash(dir));
    KeptPartsKept(SplitSlash(dir));
    if parts != [] { NoPartsMeansRoot(parts); }
    if dir == "/" {
      PartsOfChild("", leaf);
      assert SplitSlash("") == [""] && KeptParts([""]) == KeptParts([""][1..]);
    } else {
      PartsOfChild(dir, leaf);
      PartsAppend(dir, leaf);
    }
  }

  // ----- what `folderPath` does to any path -----

  predicate AllNoSlash(parts: seq<string>) {
    forall i :: 0 <= i < |parts| ==> NoSlash(parts[i])
  }

  lemma {:induction false} JoinCons(part: string, rest: seq<string>)
    requires rest != []
    ensures JoinSlash([part] + rest) == part + "/" + JoinSlash(rest)
    decreases rest
  {
    var init, last := rest[..|rest| - 1], rest[|rest| - 1];
    InitLast(rest);
    Associative([part], init, [last]);
    JoinAppend([part] + init, last);
    JoinAppend(init, last);
    if init == [] {
      Unit([part]);
    } else {
      JoinCons(part, init);
      Associative(part + "/", JoinSlash(init), "/" + last);
      Associative(part + "/" + JoinSlash(init), "/", last);
      Associative(JoinSlash(init), "/", last);
    }
  }

  /** Splitting cuts at every slash, and nowhere else. */
  lemma {:induction false} SplitCuts(s: string)
    ensures AllNoSlash(SplitSlash(s)) && JoinSlash(SplitSlash(s)) == s
    decreases s
  {
    if s != [] {
      var rest := SplitSlash(s[1..]);
      SplitCuts(s[1..]);
      FirstRest(rest);
      if s[0] == '/' {
        JoinCons("", rest);
        assert "" + "/" + s[1..] == s;
      } else {
        JoinLonger(s[0], rest);
      }
    }
  }

  lemma JoinLonger(c: char, parts: seq<string>)
    requires parts != []
    ensures JoinSlash([[c] + parts[0]] + parts[1..]) == [c] + JoinSlash(parts)
  {
    var first, rest := [c] + parts[0], parts[1..];
    FirstRest(parts);
    if rest != [] {
      JoinCons(parts[0], rest);
      JoinCons(first, rest);
      Associative([c], parts[0], "/" + JoinSlash(rest));
      Associative(parts[0], "/", JoinSlash(rest));
      Associative(first, "/", JoinSlash(rest));
    } else {
      Unit([first]);
    }
  }

  lemma {:induction false} SplitJoined(parts: seq<string>)
    requires parts != [] && AllNoSlash(parts)
    ensures SplitSlash(JoinSlash(parts)) == parts
    decreases parts
  {
    var init, last := parts[..|parts| - 1], parts[|parts| - 1];
    InitLast(parts);
    if init == [] {
      SplitLeaf(last);
    } else {
      SplitJoined(init);
      SplitAppend(JoinSlash(init), last);
    }
  }

  lemma {:induction false} KeptNoSlash(parts: seq<string>)
    requires AllNoSlash(parts)
    ensures AllNoSlash(KeptParts(parts))
    decreases parts
  {
    if parts != [] {
      assert forall i :: 0 <= i < |parts| - 1 ==> parts[1..][i] == parts[i + 1];
      KeptNoSlash(parts[1..]);
    }
  }

  lemma {:induction false} KeptAll(parts: seq<string>)
    requires forall i :: 0 <= i < |parts| ==> Kept(parts[i])
    ensures KeptParts(parts) == parts
    decreases parts
  {
    if parts != [] {
      assert forall i :: 0 <= i < |parts| - 1 ==> parts[1..][i] == parts[i + 1];
      KeptAll(parts[1..]);
      FirstRest(parts);
    }
  }

  lemma {:induction false} KeptAre(parts: seq<string>, part: string)
    ensures part in KeptParts(parts) <==> part in parts && part != "" && part != "."
    decreases parts
  {
    if parts != [] { KeptAre(parts[1..], part); }
  }

  /** A repaired path is "/" or the parts of the old one, each after a slash, without empty parts and dots. */
  lemma FolderPathKeepsParts(p: string)
    ensures var parts := KeptParts(SplitSlash(p));
            SplitSlash(FolderPath(p)) == [""] + (if parts == [] then [""] else parts)
    ensures FolderPath(FolderPath(p)) == FolderPath(p)
  {
    var parts := KeptParts(SplitSlash(p));
    SplitCuts(p);
    KeptNoSlash(SplitSlash(p));
    KeptPartsKept(SplitSlash(p));
    KeptAll(parts);
    assert FolderPath(p)[0] == '/' && FolderPath(p)[1..] == JoinSlash(parts);
    if parts != [] {
      SplitJoined(parts);
      Cons("", parts);
    } else {
      assert SplitSlash("") == [""];
      Cons("", [""]);
      Single("");
      assert KeptParts([]) == [] && KeptParts([""]) == [] && KeptParts([""] + [""]) == [];
    }
  }
}
