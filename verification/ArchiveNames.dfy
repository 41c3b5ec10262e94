/** Names of archive entries: made safe, made unique among siblings, and joined into paths. */
module ArchiveNames {
  import opened Options
  import opened Decimals
  import opened Trimming

  const MAX_FILENAME := 128
  const MAX_FILE_PATH := 1000
  const MAX_COUNTER := 10000
  const SUFFIX_ROOM := 8

  // ----- characters and strings -----

  /** What lower-casing makes of the characters outside ASCII: anything but a separator. */
  type Folding = fold: char -> char | forall c: char :: fold(c) != '/' && fold(c) != '.' witness (c: char) => 'a'

  /** Left open: all that follows holds however the characters outside ASCII are folded. */
  const FOLDED: Folding

  /** `toLowerCase`, character by character. */
  function LowerChar(c: char): char {
    if 'A' <= c <= 'Z' then (c as int + 32) as char else if c as int < 128 then c else FOLDED(c)
  }

  function Lower(s: string): (r: string)
    ensures |r| == |s|
    ensures forall i :: 0 <= i < |s| ==> r[i] == LowerChar(s[i])
  {
    if s == [] then [] else [LowerChar(s[0])] + Lower(s[1..])
  }

  predicate NoSlash(s: string) {
    '/' !in s
  }

  function Dashed(s: string): (r: string)
    ensures '/' !in r && '\\' !in r
  {
    if s == [] then [] else [if s[0] == '/' || s[0] == '\\' then '-' else s[0]] + Dashed(s[1..])
  }

  /** A single path component that fits the column, never empty, `.` or `..`. */
  function SafeName(name: string): (r: string)
    ensures 0 < |r| <= MAX_FILENAME && '/' !in r && '\\' !in r && r != "." && r != ".."
  {
    var trimmed := Trim(Dashed(name));
    var s := if trimmed == "" || trimmed == "." || trimmed == ".." then "file" else trimmed;
    if |s| > MAX_FILENAME then s[..MAX_FILENAME] else s
  }

  // ----- counters -----

  lemma DecimalLength(n: nat)
    requires n < MAX_COUNTER
    ensures |Decimal(n)| <= 4
  {
    assert |Decimal(n / 10 / 10 / 10)| == 1;
    assert |Decimal(n / 10 / 10)| <= 2;
    assert |Decimal(n / 10)| <= 3;
  }

  // ----- sibling keys -----

  /** The row MySQL would see: parent, name and extension under a case-insensitive collation. */
  function Key(parentId: string, name: string, ext: string): string {
    parentId + "/" + Pair(name, ext)
  }

  function Pair(name: string, ext: string): string {
    Lower(name) + "/" + Lower(ext)
  }

  function SlashAt(s: string): nat {
    if s == [] || s[0] == '/' then 0 else 1 + SlashAt(s[1..])
  }

  lemma {:induction false} SlashAfter(a: string, rest: string)
    requires NoSlash(a)
    ensures SlashAt(a + "/" + rest) == |a|
    decreases a
  {
    if a != [] {
      assert (a + "/" + rest)[1..] == a[1..] + "/" + rest;
      SlashAfter(a[1..], rest);
    }
  }

  lemma SplitAtSlash(a: string, b: string, x: string, y: string)
    requires NoSlash(a) && NoSlash(b) && a + "/" + x == b + "/" + y
    ensures a == b && x == y
  {
    SlashAfter(a, x);
    SlashAfter(b, y);
    var s := a + "/" + x;
    assert a == s[..|a|] && b == s[..|b|];
    assert x == s[|a| + 1..] && y == s[|b| + 1..];
  }

  lemma LowerNoSlash(s: string)
    requires NoSlash(s)
    ensures NoSlash(Lower(s))
  {
  }

  lemma SamePrefix(p: string, a: string, b: string)
    requires p + a == p + b
    ensures a == b
  {
    assert a == (p + a)[|p|..] && b == (p + b)[|p|..];
  }

  /** No two different (name, extension) pairs share a key, since no name holds the separator. */
  lemma KeyInjective(parentId: string, name: string, ext: string, name': string, ext': string)
    requires NoSlash(name) && NoSlash(name')
    requires Key(parentId, name, ext) == Key(parentId, name', ext')
    ensures Lower(name) == Lower(name') && Lower(ext) == Lower(ext')
  {
    SamePrefix(parentId + "/", Pair(name, ext), Pair(name', ext'));
    LowerNoSlash(name);
    LowerNoSlash(name');
    SplitAtSlash(Lower(name), Lower(name'), Lower(ext), Lower(ext'));
  }

  function Stem(name: string): (s: string)
    ensures |s| <= MAX_FILENAME - SUFFIX_ROOM && s <= name
  {
    if |name| > MAX_FILENAME - SUFFIX_ROOM then name[..MAX_FILENAME - SUFFIX_ROOM] else name
  }

  function Numbered(stem: string, i: nat): string {
    stem + "(" + Decimal(i) + ")"
  }

  predicate Taken(seen: set<string>, parentId: string, name: string, ext: string) {
    Key(parentId, name, ext) in seen
  }

  /** The least free counter from `i` on, below the limit. */
  function FreeCounter(seen: set<string>, parentId: string, stem: string, ext: string, i: nat): (r: Option<nat>)
    ensures r.Some? ==> i <= r.value < MAX_COUNTER && !Taken(seen, parentId, Numbered(stem, r.value), ext)
    ensures forall j :: i <= j < (if r.Some? then r.value else MAX_COUNTER) ==>
              Taken(seen, parentId, Numbered(stem, j), ext)
    decreases MAX_COUNTER - i
  {
    if i >= MAX_COUNTER then None
    else if !Taken(seen, parentId, Numbered(stem, i), ext) then Some(i)
    else FreeCounter(seen, parentId, stem, ext, i + 1)
  }

  /** The name an entry gets: its own, the first free numbered one, or one with a random suffix. */
  function UniqueName(seen: set<string>, parentId: string, name: string, ext: string, random: string): string {
    if !Taken(seen, parentId, name, ext) then name
    else match FreeCounter(seen, parentId, Stem(name), ext, 1)
         case Some(i) => Numbered(Stem(name), i)
         case None => Stem(name) + "-" + random
  }

  /** Every candidate name is taken, so the random suffix is used unchecked. */
  predicate Exhausted(seen: set<string>, parentId: string, name: string, ext: string) {
    Taken(seen, parentId, name, ext) && FreeCounter(seen, parentId, Stem(name), ext, 1).None?
  }

  /** Unless every candidate is taken, the name is new among its siblings, fits and stays a component. */
  lemma UniqueNameIsFree(seen: set<string>, parentId: string, name: string, ext: string, random: string)
    requires !Exhausted(seen, parentId, name, ext) && NoSlash(name) && 0 < |name| <= MAX_FILENAME
    ensures var r := UniqueName(seen, parentId, name, ext, random);
            !Taken(seen, parentId, r, ext) && NoSlash(r) && 0 < |r| <= MAX_FILENAME && Stem(name) <= r
  {
    if Taken(seen, parentId, name, ext) {
      DecimalLength(FreeCounter(seen, parentId, Stem(name), ext, 1).value);
    }
  }

  /**
   * A random suffix is neither checked nor cut: the name fits its column just when the suffix leaves
   * room, which eight hexadecimal digits do only for names shorter than the stem may be.
   */
  lemma UniqueNameFitsExactly(seen: set<string>, parentId: string, name: string, ext: string, random: string)
    requires NoSlash(name) && 0 < |name| <= MAX_FILENAME
    ensures var fits := |UniqueName(seen, parentId, name, ext, random)| <= MAX_FILENAME;
            (fits <==> (Exhausted(seen, parentId, name, ext) ==> |Stem(name)| + 1 + |random| <= MAX_FILENAME)) &&
            (Exhausted(seen, parentId, name, ext) && |random| == 8 ==> (fits <==> |name| < MAX_FILENAME - SUFFIX_ROOM))
  {
    if !Exhausted(seen, parentId, name, ext) { UniqueNameIsFree(seen, parentId, name, ext, random); }
  }

  lemma NumberedKeysDiffer(parentId: string, stem: string, ext: string, i: nat, j: nat)
    requires NoSlash(stem) && i != j
    ensures Key(parentId, Numbered(stem, i), ext) != Key(parentId, Numbered(stem, j), ext)
  {
    if Key(parentId, Numbered(stem, i), ext) == Key(parentId, Numbered(stem, j), ext) {
      KeyInjective(parentId, Numbered(stem, i), ext, Numbered(stem, j), ext);
      LowerNumbered(stem, i);
      LowerNumbered(stem, j);
      var a, b := Lower(Numbered(stem, i)), Lower(Numbered(stem, j));
      assert a[|stem| + 1..|a| - 1] == Decimal(i) && b[|stem| + 1..|b| - 1] == Decimal(j);
      DecimalRoundTrip(i);
      DecimalRoundTrip(j);
      assert false;
    }
  }

  lemma LowerConcat(a: string, b: string)
    ensures Lower(a + b) == Lower(a) + Lower(b)
  {
  }

  lemma LowerDigits(s: string)
    requires AllDigits(s)
    ensures Lower(s) == s
  {
  }

  lemma LowerNumbered(stem: string, i: nat)
    ensures Lower(Numbered(stem, i)) == Numbered(Lower(stem), i)
  {
    LowerConcat(stem + "(" + Decimal(i), ")");
    LowerConcat(stem + "(", Decimal(i));
    LowerConcat(stem, "(");
    LowerDigits(Decimal(i));
    assert Lower("(") == "(" && Lower(")") == ")";
  }

  /** Keys of the counters `from..MAX_COUNTER`. */
  function CounterKeys(parentId: string, stem: string, ext: string, from: nat): set<string> {
    set i | from <= i < MAX_COUNTER :: Key(parentId, Numbered(stem, i), ext)
  }

  /** A counter's key is none of the later counters' keys. */
  lemma CounterKeyIsNew(parentId: string, stem: string, ext: string, i: nat)
    requires NoSlash(stem)
    ensures Key(parentId, Numbered(stem, i), ext) !in CounterKeys(parentId, stem, ext, i + 1)
  {
    forall j | i + 1 <= j < MAX_COUNTER
      ensures Key(parentId, Numbered(stem, i), ext) != Key(parentId, Numbered(stem, j), ext)
    {
      NumberedKeysDiffer(parentId, stem, ext, i, j);
    }
  }

  lemma {:induction false} CounterKeysCount(parentId: string, stem: string, ext: string, from: nat)
    requires NoSlash(stem) && from <= MAX_COUNTER
    ensures |CounterKeys(parentId, stem, ext, from)| == MAX_COUNTER - from
    decreases MAX_COUNTER - from
  {
    if from == MAX_COUNTER {
      assert CounterKeys(parentId, stem, ext, from) == {};
    } else {
      CounterKeysCount(parentId, stem, ext, from + 1);
      CounterKeyIsNew(parentId, stem, ext, from);
      assert CounterKeys(parentId, stem, ext, from)
          == CounterKeys(parentId, stem, ext, from + 1) + {Key(parentId, Numbered(stem, from), ext)};
    }
  }

  lemma SubsetCount<T>(a: set<T>, b: set<T>)
    requires a <= b
    ensures |a| <= |b|
  {
    assert b == a + (b - a);
  }

  /** Numbered names are longer than their stem, so the bare stem's key is none of theirs. */
  lemma BareStemIsNew(parentId: string, stem: string, ext: string, from: nat)
    ensures Key(parentId, stem, ext) !in CounterKeys(parentId, stem, ext, from)
  {
    forall j | from <= j < MAX_COUNTER ensures Key(parentId, stem, ext) != Key(parentId, Numbered(stem, j), ext) {
      assert |Key(parentId, stem, ext)| < |Key(parentId, Numbered(stem, j), ext)|;
    }
  }

  /** Counters that are all taken are that many keys, and none of them is the bare stem's. */
  lemma TakenCountersCount(seen: set<string>, parentId: string, stem: string, ext: string, from: nat)
    requires NoSlash(stem) && from <= MAX_COUNTER
    requires forall j :: from <= j < MAX_COUNTER ==> Taken(seen, parentId, Numbered(stem, j), ext)
    ensures |seen| >= MAX_COUNTER - from
    ensures Taken(seen, parentId, stem, ext) ==> |seen| > MAX_COUNTER - from
  {
    var keys, own := CounterKeys(parentId, stem, ext, from), Key(parentId, stem, ext);
    CounterKeysCount(parentId, stem, ext, from);
    assert keys <= seen;
    SubsetCount(keys, seen);
    if own in seen {
      BareStemIsNew(parentId, stem, ext, from);
      SubsetCount(keys + {own}, seen);
    }
  }

  /** The random suffix is reached only among at least 9999 siblings; one more when the name was not cut. */
  lemma ExhaustedNeedsManySiblings(seen: set<string>, parentId: string, name: string, ext: string)
    requires NoSlash(name) && Exhausted(seen, parentId, name, ext)
    ensures |seen| >= MAX_COUNTER - 1
    ensures |name| <= MAX_FILENAME - SUFFIX_ROOM ==> |seen| >= MAX_COUNTER
  {
    StemNoSlash(name);
    TakenCountersCount(seen, parentId, Stem(name), ext, 1);
  }

  /** A cut name that looks numbered itself finds every counter taken among the keys of its stem's counters. */
  lemma NumberedNameIsExhausted(seen: set<string>, parentId: string, stem: string, ext: string, own: nat)
    requires |stem| == MAX_FILENAME - SUFFIX_ROOM && 1 <= own < MAX_COUNTER
    requires CounterKeys(parentId, stem, ext, 1) <= seen
    ensures Stem(Numbered(stem, own)) == stem && Exhausted(seen, parentId, Numbered(stem, own), ext)
  {
    forall j | 1 <= j < MAX_COUNTER ensures Taken(seen, parentId, Numbered(stem, j), ext) {
      assert Key(parentId, Numbered(stem, j), ext) in CounterKeys(parentId, stem, ext, 1);
    }
  }

  /** The bound is exact: such a name is exhausted by 9999 keys. */
  lemma ExhaustionBoundIsTight(parentId: string, stem: string, ext: string, own: nat)
    requires NoSlash(stem) && |stem| == MAX_FILENAME - SUFFIX_ROOM && 1 <= own < MAX_COUNTER
    ensures var seen := CounterKeys(parentId, stem, ext, 1);
            Exhausted(seen, parentId, Numbered(stem, own), ext) && |seen| == MAX_COUNTER - 1
  {
    NumberedNameIsExhausted(CounterKeys(parentId, stem, ext, 1), parentId, stem, ext, own);
    CounterKeysCount(parentId, stem, ext, 1);
  }

  /** There the random suffix is not checked: drawn once more, it gives a name whose key is taken. */
  lemma SuffixCanCollide(parentId: string, stem: string, ext: string, own: nat, random: string)
    requires NoSlash(stem) && |stem| == MAX_FILENAME - SUFFIX_ROOM && 1 <= own < MAX_COUNTER
    ensures var seen := CounterKeys(parentId, stem, ext, 1) + {Key(parentId, stem + "-" + random, ext)};
            Taken(seen, parentId, UniqueName(seen, parentId, Numbered(stem, own), ext, random), ext)
  {
    NumberedNameIsExhausted(CounterKeys(parentId, stem, ext, 1) + {Key(parentId, stem + "-" + random, ext)},
      parentId, stem, ext, own);
  }

  lemma StemNoSlash(name: string)
    requires NoSlash(name)
    ensures NoSlash(Stem(name))
  {
  }

  /** The keys of the siblings collected so far in one directory. */
  class Siblings {
    var seen: set<string>

    constructor ()
      ensures seen == {}
    {
      seen := {};
    }

    method UniqueSibling(parentId: string, name: string, ext: string, random: string) returns (unique: string)
      modifies this
      ensures unique == UniqueName(old(seen), parentId, name, ext, random)
      ensures seen == old(seen) + {Key(parentId, unique, ext)}
    {
      if Key(parentId, name, ext) !in seen {
        seen := seen + {Key(parentId, name, ext)};
        return name;
      }
      var room := MAX_FILENAME - SUFFIX_ROOM;
      var stem := if |name| > room then name[..room] else name;
      var i := 1;
      while i < MAX_COUNTER
        invariant 1 <= i <= MAX_COUNTER
        invariant seen == old(seen)
        invariant FreeCounter(seen, parentId, stem, ext, 1) == FreeCounter(seen, parentId, stem, ext, i)
      {
        var candidate := stem + "(" + Decimal(i) + ")";
        if Key(parentId, candidate, ext) !in seen {
          seen := seen + {Key(parentId, candidate, ext)};
          return candidate;
        }
        i := i + 1;
      }
      unique := stem + "-" + random;
      seen := seen + {Key(parentId, unique, ext)};
    }
  }
}
