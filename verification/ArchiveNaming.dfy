/** What a name, an extension and a path come to, said of the entry itself. */
module ArchiveNaming {
  import opened Options
  import opened Trimming
  import opened Decimals
  import opened ArchiveNames
  import opened ArchivePaths
  import opened ArchiveImport

  // ----- safe names -----

  /** A separator becomes a dash; every other character stays. */
  predicate DashedAs(s: string, r: string) {
    |r| == |s| && forall i :: 0 <= i < |s| ==> r[i] == if s[i] == '/' || s[i] == '\\' then '-' else s[i]
  }

  lemma {:induction false} DashedIs(s: string)
    ensures DashedAs(s, Dashed(s))
    decreases s
  {
    if s != [] { DashedIs(s[1..]); }
  }

  /**
   * A name is the entry's without the white space around it, with dashes for separators, and cut to the
   * column; where nothing or a dot name is left it is "file".
   */
  lemma SafeNameExactly(lead: string, s: string, tail: string, r: string)
    requires AllSpace(lead) && AllSpace(tail) && Tight(s) && DashedAs(s, r)
    ensures SafeName(lead + s + tail)
         == if r == "" || r == "." || r == ".." then "file" else if |r| > 128 then r[..128] else r
  {
    var dashes := Dashed(lead + s + tail);
    DashedIs(lead + s + tail);
    SpacesAre('/');
    SpacesAre('\\');
    SpacesAre('-');
    var l, m, t := dashes[..|lead|], dashes[|lead|..|lead| + |s|], dashes[|lead| + |s|..];
    assert dashes == l + m + t;
    assert l == lead && t == tail && m == r;
    TrimIsTight(l, m, t);
  }

  // ----- names that are kept, and numbered ones -----

  /** The `i`-th numbered name: at most 120 characters of the name, and the number. */
  function Candidate(name: string, i: nat): string {
    name[..Min(|name|, 120)] + "(" + Decimal(i) + ")"
  }

  predicate Free(seen: set<string>, parentId: string, name: string, ext: string) {
    Key(parentId, name, ext) !in seen
  }

  predicate FirstFree(seen: set<string>, parentId: string, name: string, ext: string, i: nat) {
    1 <= i < 10000 && Free(seen, parentId, Candidate(name, i), ext) &&
    forall j :: 1 <= j < i ==> !Free(seen, parentId, Candidate(name, j), ext)
  }

  predicate NoneFree(seen: set<string>, parentId: string, name: string, ext: string) {
    forall j :: 1 <= j < 10000 ==> !Free(seen, parentId, Candidate(name, j), ext)
  }

  lemma CandidateIs(name: string, i: nat)
    ensures Numbered(Stem(name), i) == Candidate(name, i)
  {
  }

  lemma CounterIsFirst(seen: set<string>, parentId: string, name: string, ext: string)
    ensures var free := FreeCounter(seen, parentId, Stem(name), ext, 1);
            (free.Some? ==> FirstFree(seen, parentId, name, ext, free.value)) &&
            (free.None? ==> NoneFree(seen, parentId, name, ext))
  {
    var free := FreeCounter(seen, parentId, Stem(name), ext, 1);
    forall j: nat ensures Taken(seen, parentId, Numbered(Stem(name), j), ext)
                       == !Free(seen, parentId, Candidate(name, j), ext) {
      CandidateIs(name, j);
    }
    if free.Some? { assert !Taken(seen, parentId, Numbered(Stem(name), free.value), ext); }
    if free.None? {
      forall j | 1 <= j < 10000 ensures !Free(seen, parentId, Candidate(name, j), ext) {
        assert Taken(seen, parentId, Numbered(Stem(name), j), ext);
      }
    }
  }

  /**
   * A free name is kept; a taken one becomes the first free numbered one, and only when none is free the
   * name with the random suffix.
   */
  lemma NameOrNumber(seen: set<string>, parentId: string, name: string, ext: string, random: string)
    ensures var r := UniqueName(seen, parentId, name, ext, random);
            (Free(seen, parentId, name, ext) ==> r == name) &&
            (!Free(seen, parentId, name, ext) && !NoneFree(seen, parentId, name, ext) ==>
               exists i: nat :: FirstFree(seen, parentId, name, ext, i) && r == Candidate(name, i)) &&
            (!Free(seen, parentId, name, ext) && NoneFree(seen, parentId, name, ext) ==>
               r == name[..Min(|name|, 120)] + "-" + random)
    ensures Exhausted(seen, parentId, name, ext) <==>
              !Free(seen, parentId, name, ext) && NoneFree(seen, parentId, name, ext)
  {
    CounterIsFirst(seen, parentId, name, ext);
    var free := FreeCounter(seen, parentId, Stem(name), ext, 1);
    if free.Some? { CandidateIs(name, free.value); }
  }

  // ----- keys up to case -----

  /** The same string but for the case of ASCII letters. */
  predicate CaseVariant(a: string, b: string) {
    |a| == |b| && forall i :: 0 <= i < |a| ==> SameLetter(a[i], b[i])
  }

  predicate SameLetter(a: char, b: char) {
    a == b || ('a' <= a <= 'z' && b as int == a as int - 32) || ('A' <= a <= 'Z' && b as int == a as int + 32)
  }

  lemma LettersFoldAlike(a: char, b: char)
    requires SameLetter(a, b)
    ensures LowerChar(a) == LowerChar(b)
  {
  }

  lemma VariantsFoldAlike(a: string, b: string)
    requires CaseVariant(a, b)
    ensures Lower(a) == Lower(b)
  {
    forall i | 0 <= i < |a| ensures Lower(a)[i] == Lower(b)[i] {
      LettersFoldAlike(a[i], b[i]);
    }
  }

  /** Siblings whose names and extensions differ in case only have one key. */
  lemma CaseIsIgnored(parentId: string, name: string, ext: string, other: string, otherExt: string)
    requires CaseVariant(name, other) && CaseVariant(ext, otherExt)
    ensures Key(parentId, name, ext) == Key(parentId, other, otherExt)
  {
    VariantsFoldAlike(name, other);
    VariantsFoldAlike(ext, otherExt);
  }

  // ----- extensions -----

  /** An ASCII digit or letter, by its code. */
  predicate Alphanumeric(c: char) {
    var u := c as int;
    48 <= u < 58 || 65 <= u < 91 || 97 <= u < 123
  }

  /** Letters and digits, at least one. */
  predicate Run(s: string) {
    s != "" && forall i :: 0 <= i < |s| ==> Alphanumeric(s[i])
  }

  predicate Joint(c: char) {
    c == '.' || c == '_' || c == '-'
  }

  /** Runs of letters and digits joined by single dots, dashes or underscores. */
  predicate Runs(s: string)
    decreases s
  {
    Run(s) || exists i :: 0 < i < |s| && JointAt(s, i) && Runs(s[i + 1..])
  }

  predicate JointAt(s: string, i: int)
    requires 0 < i < |s|
  {
    Run(s[..i]) && Joint(s[i])
  }

  predicate PlainChars(s: string) {
    s != "" && AlphaNum(s[0]) && AlphaNum(s[|s| - 1]) &&
    (forall i :: 0 <= i < |s| ==> AlphaNum(s[i]) || Joint(s[i])) &&
    (forall i :: 0 <= i < |s| - 1 ==> AlphaNum(s[i]) || AlphaNum(s[i + 1]))
  }

  /** A run, a joint and plain text make plain text. */
  lemma PlainJoined(a: string, c: char, b: string)
    requires Run(a) && Joint(c) && PlainChars(b)
    ensures PlainChars(a + [c] + b)
  {
    var s := a + [c] + b;
    assert forall j :: 0 <= j < |a| ==> s[j] == a[j];
    assert forall j :: |a| < j < |s| ==> s[j] == b[j - |a| - 1];
  }

  lemma RunIsPlain(s: string)
    requires Run(s)
    ensures PlainChars(s)
  {
  }

  lemma PlainAtJoint(s: string, i: int)
    requires 0 < i < |s| && JointAt(s, i) && PlainChars(s[i + 1..])
    ensures PlainChars(s)
  {
    PlainJoined(s[..i], s[i], s[i + 1..]);
    assert s == s[..i] + [s[i]] + s[i + 1..];
  }

  lemma {:induction false} RunsArePlain(s: string)
    requires Runs(s)
    ensures PlainChars(s)
    decreases s
  {
    if Run(s) {
      RunIsPlain(s);
    } else {
      var i :| 0 < i < |s| && JointAt(s, i) && Runs(s[i + 1..]);
      RunsArePlain(s[i + 1..]);
      PlainAtJoint(s, i);
    }
  }

  lemma {:induction false} PlainIsRuns(s: string)
    requires PlainChars(s)
    ensures Runs(s)
    decreases s
  {
    if !Run(s) {
      var i := FirstJoint(s, 0);
      assert forall j :: 0 <= j < i ==> s[..i][j] == s[j];
      assert JointAt(s, i);
      var rest := s[i + 1..];
      assert forall j :: 0 <= j < |rest| ==> rest[j] == s[i + 1..][j];
      PlainIsRuns(rest);
    }
  }

  /** The first character that is no letter or digit. */
  lemma {:induction false} FirstJoint(s: string, from: nat) returns (i: nat)
    requires PlainChars(s) && !Run(s) && from < |s| && forall j :: 0 <= j < from ==> AlphaNum(s[j])
    ensures 0 < i < |s| - 1 && Joint(s[i]) && AlphaNum(s[i + 1]) && forall j :: 0 <= j < i ==> AlphaNum(s[j])
    decreases |s| - from
  {
    if AlphaNum(s[from]) { i := FirstJoint(s, from + 1); } else { i := from; }
  }

  /** An extension is kept exactly when it is made of such runs and at most 16 characters long. */
  lemma PlainExtensionExactly(s: string)
    ensures PlainExtension(s) <==> Runs(s) && |s| <= 16
  {
    if Runs(s) { RunsArePlain(s); }
    if PlainChars(s) { PlainIsRuns(s); }
  }

  lemma {:induction false} LastDotIs(stem: string, x: string)
    requires '.' !in x
    ensures LastDot(stem + "." + x) == |stem|
    decreases x
  {
    var s := stem + "." + x;
    if x != "" {
      assert s[..|s| - 1] == stem + "." + x[..|x| - 1];
      LastDotIs(stem, x[..|x| - 1]);
    }
  }

  lemma {:induction false} NoDot(s: string)
    requires '.' !in s
    ensures LastDot(s) == -1
    decreases s
  {
    if s != [] { NoDot(s[..|s| - 1]); }
  }

  // ----- what a file asks for -----

  /** A name that needs no repair. */
  predicate Intact(s: string) {
    0 < |s| <= 128 && '/' !in s && '\\' !in s && s != "." && s != ".." && Tight(s)
  }

  lemma IntactIsSafe(s: string)
    requires Intact(s)
    ensures SafeName(s) == s
  {
    assert "" + s + "" == s;
    SafeNameExactly("", s, "", s);
  }

  /** What nothing was identified about, or no more than its name says. */
  predicate SaysNothingNew(info: Info, stem: string, x: string) {
    (info.filename == "" || info.filename == stem) && (info.extension == "" || info.extension == x)
  }

  lemma CutAtDot(stem: string, x: string)
    requires stem != "" && '.' !in x && x != ""
    ensures NameAndExt(stem + "." + x) == (stem, x)
  {
    var name := stem + "." + x;
    LastDotIs(stem, x);
    assert name[..|stem|] == stem && name[|stem| + 1..] == x;
    assert |name| > 2;
  }

  lemma DottedAsks(e: Entry, stem: string, x: string)
    requires e.File? && NameAndExt(e.name) == (stem, x) && x != ""
    requires Intact(stem) && Runs(Lower(x)) && |x| <= 16 && SaysNothingNew(e.info, stem, x)
    ensures AskedName(e) == stem && Extension(e) == Lower(x)
  {
    PlainExtensionExactly(Lower(x));
    IntactIsSafe(stem);
  }

  /** A file `stem.x` asks for the name `stem` and the extension `x` in lower case. */
  lemma DottedFileAsks(stem: string, x: string, info: Info, size: nat)
    requires Intact(stem) && '.' !in x && x != "" && Runs(Lower(x)) && |x| <= 16 && SaysNothingNew(info, stem, x)
    ensures var e := File(stem + "." + x, info, size); AskedName(e) == stem && Extension(e) == Lower(x)
  {
    CutAtDot(stem, x);
    DottedAsks(File(stem + "." + x, info, size), stem, x);
  }

  /** A file without a dot asks for its whole name and has no extension. */
  lemma UndottedFileAsks(name: string, size: nat)
    requires Intact(name) && '.' !in name
    ensures var e := File(name, Info("", ""), size); AskedName(e) == name && Extension(e) == ""
  {
    NoDot(name);
    assert Lower("") == "";
    IntactIsSafe(name);
  }

  /** A leading dot starts no extension. */
  lemma HiddenFileAsks(rest: string, size: nat)
    requires Intact("." + rest) && '.' !in rest
    ensures var e := File("." + rest, Info("", ""), size); AskedName(e) == "." + rest && Extension(e) == ""
  {
    assert "" + "." + rest == "." + rest;
    LastDotIs("", rest);
    assert Lower("") == "";
    IntactIsSafe("." + rest);
  }

  /** An identified name and a plain identified extension are the ones used. */
  lemma IdentifiedFileAsks(name: string, info: Info, size: nat)
    requires info.filename != "" && Intact(info.filename)
    requires info.extension != "" && Runs(Lower(info.extension)) && |info.extension| <= 16
    ensures var e := File(name, info, size); AskedName(e) == info.filename && Extension(e) == Lower(info.extension)
  {
    PlainExtensionExactly(Lower(info.extension));
    IntactIsSafe(info.filename);
  }

  /** An extension that is not plain is dropped, and the whole entry name becomes the file's. */
  lemma DroppedExtensionKeepsName(name: string, info: Info, size: nat)
    requires Intact(name) && info.extension != "" && !(Runs(Lower(info.extension)) && |info.extension| <= 16)
    ensures var e := File(name, info, size); AskedName(e) == name && Extension(e) == ""
  {
    PlainExtensionExactly(Lower(info.extension));
    IntactIsSafe(name);
  }

  lemma DroppedAsks(e: Entry)
    requires e.File? && RawExtension(e) != "" && !PlainExtension(RawExtension(e))
    ensures AskedName(e) == SafeName(e.name) && Extension(e) == ""
  {
  }

  lemma OddAsks(e: Entry, stem: string, x: string)
    requires e.File? && NameAndExt(e.name) == (stem, x) && x != "" && e.info.extension == "" && Intact(e.name)
    requires !(Runs(Lower(x)) && |x| <= 16)
    ensures AskedName(e) == e.name && Extension(e) == ""
  {
    assert RawExtension(e) == Lower(x);
    PlainExtensionExactly(Lower(x));
    IntactIsSafe(e.name);
    DroppedAsks(e);
  }

  /** So it is with an extension of the name itself. */
  lemma OddSuffixKeepsName(stem: string, x: string, info: Info, size: nat)
    requires stem != "" && '.' !in x && x != "" && info.extension == "" && Intact(stem + "." + x)
    requires !(Runs(Lower(x)) && |x| <= 16)
    ensures var e := File(stem + "." + x, info, size); AskedName(e) == stem + "." + x && Extension(e) == ""
  {
    CutAtDot(stem, x);
    OddAsks(File(stem + "." + x, info, size), stem, x);
  }

  /** A directory asks for its own name, dots and all. */
  lemma FolderAsks(name: string, readable: bool, kids: seq<Entry>)
    requires Intact(name)
    ensures var e := Folder(name, readable, kids); AskedName(e) == name && Extension(e) == ""
  {
    assert Lower("") == "";
    IntactIsSafe(name);
  }

  // ----- the node -----

  /** The node of an entry shows what the entry is, under the folder being walked. */
  predicate ShowsEntry(n: Node, e: Entry, at: Place, name: string, ext: string) {
    n.name == name && n.ext == ext && n.folder == e.Folder? && n.size == (if e.File? then e.size else 0) &&
    n.parentId == at.parent.id && n.lvl == at.lvl &&
    n.path == at.parent.path + "/" + (if ext == "" then name else name + "." + ext)
  }

  lemma NodeShows(e: Entry, at: Place, seen: set<string>, count: nat, supply: Supply)
    requires Regular(e) && PlainSuffixes(supply) && Normal(at.parent.path) && at.parent.path != "/"
    ensures ShowsEntry(NodeOf(e, at, seen, count, supply), e, at,
              ChosenName(e, at.parent.id, seen, supply.random(count)), Extension(e))
  {
    var name := ChosenName(e, at.parent.id, seen, supply.random(count));
    ChosenNameIsComponent(e, at.parent.id, seen, supply.random(count));
    ChildPathsExtend(at.parent.path, Leaf(name, Extension(e)));
  }

  /** A file `stem.x` whose name is free comes in as `stem` with extension `x`, at `stem.x` below its folder. */
  lemma DottedFileComesIn(stem: string, x: string, info: Info, size: nat, at: Place, seen: set<string>, count: nat,
      supply: Supply)
    requires PlainSuffixes(supply) && Normal(at.parent.path) && at.parent.path != "/"
    requires Intact(stem) && '.' !in x && x != "" && Runs(Lower(x)) && |x| <= 16 && SaysNothingNew(info, stem, x)
    requires Key(at.parent.id, stem, Lower(x)) !in seen
    ensures var e := File(stem + "." + x, info, size);
            ShowsEntry(NodeOf(e, at, seen, count, supply), e, at, stem, Lower(x))
  {
    var e := File(stem + "." + x, info, size);
    DottedFileAsks(stem, x, info, size);
    NameOrNumber(seen, at.parent.id, stem, Lower(x), supply.random(count));
    NodeShows(e, at, seen, count, supply);
  }
}
