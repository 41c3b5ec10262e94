/** Comments of a tabbed document: keyed by content or, for anchors, by ordinal; what a save adds. */
module CasualDocs {
  import opened Options
  import opened Decimals
  import opened OfficeComments
  import opened Sequences

  /** A stored comment; `date` ranks its date text under the locale's order. */
  datatype Stored = Stored(date: int, content: string, body: string)

  /** A tab with `comments.xml`, or one that carries only `count` comment anchors. */
  datatype Tab = Xml(id: string, comments: seq<Stored>) | Anchors(id: string, count: nat)

  // ----- date order -----

  /** Inserts after every comment that is not later: equal dates keep their order. */
  function InsertByDate(sorted: seq<Stored>, c: Stored): seq<Stored> {
    if sorted == [] || sorted[|sorted| - 1].date <= c.date then sorted + [c]
    else InsertByDate(sorted[..|sorted| - 1], c) + [sorted[|sorted| - 1]]
  }

  function ByDate(cs: seq<Stored>): seq<Stored> {
    if cs == [] then [] else InsertByDate(ByDate(cs[..|cs| - 1]), cs[|cs| - 1])
  }

  predicate Sorted(cs: seq<Stored>) {
    forall i, j :: 0 <= i < j < |cs| ==> cs[i].date <= cs[j].date
  }

  function IfDate(c: Stored, date: int): seq<Stored> {
    if c.date == date then [c] else []
  }

  /** The comments of one date, in order. */
  function OfDate(cs: seq<Stored>, date: int): seq<Stored> {
    if cs == [] then [] else OfDate(cs[..|cs| - 1], date) + IfDate(cs[|cs| - 1], date)
  }

  lemma OfDateOneMore(cs: seq<Stored>, c: Stored, date: int)
    ensures OfDate(cs + [c], date) == OfDate(cs, date) + IfDate(c, date)
  {
    LastOf(cs, c);
  }

  lemma {:induction false} InsertSorted(sorted: seq<Stored>, c: Stored, bound: int)
    requires Sorted(sorted) && c.date <= bound && (sorted != [] ==> sorted[|sorted| - 1].date <= bound)
    ensures Sorted(InsertByDate(sorted, c))
    ensures forall i :: 0 <= i < |InsertByDate(sorted, c)| ==> InsertByDate(sorted, c)[i].date <= bound
    decreases sorted
  {
    if sorted != [] && sorted[|sorted| - 1].date > c.date {
      InsertSorted(sorted[..|sorted| - 1], c, sorted[|sorted| - 1].date);
    }
  }

  lemma {:induction false} InsertMultiset(sorted: seq<Stored>, c: Stored)
    ensures multiset(InsertByDate(sorted, c)) == multiset(sorted) + multiset{c}
    decreases sorted
  {
    if sorted != [] && sorted[|sorted| - 1].date > c.date {
      InsertMultiset(sorted[..|sorted| - 1], c);
      InitLast(sorted);
    }
  }

  lemma {:induction false} InsertOfDate(sorted: seq<Stored>, c: Stored, date: int)
    ensures OfDate(InsertByDate(sorted, c), date) == OfDate(sorted, date) + IfDate(c, date)
    decreases sorted
  {
    if sorted == [] || sorted[|sorted| - 1].date <= c.date {
      OfDateOneMore(sorted, c, date);
    } else {
      var init, last := sorted[..|sorted| - 1], sorted[|sorted| - 1];
      InsertOfDate(init, c, date);
      OfDateOneMore(InsertByDate(init, c), last, date);
      Associative(OfDate(init, date), IfDate(c, date), IfDate(last, date));
      Associative(OfDate(init, date), IfDate(last, date), IfDate(c, date));
      assert IfDate(c, date) + IfDate(last, date) == IfDate(last, date) + IfDate(c, date);
    }
  }

  /** The date order is a permutation, sorted, that keeps comments of one date as they were. */
  lemma {:induction false} ByDateIsStableSort(cs: seq<Stored>, date: int)
    ensures Sorted(ByDate(cs)) && multiset(ByDate(cs)) == multiset(cs) && OfDate(ByDate(cs), date) == OfDate(cs, date)
    decreases cs
  {
    if cs != [] {
      var init, last := cs[..|cs| - 1], cs[|cs| - 1];
      var sorted := ByDate(init);
      ByDateIsStableSort(init, date);
      InitLast(cs);
      InsertSorted(sorted, last, if sorted == [] then last.date else Max(last.date, sorted[|sorted| - 1].date));
      InsertMultiset(sorted, last);
      InsertOfDate(sorted, last, date);
    }
  }

  // ----- reading -----

  function AnchorKey(tab: string, n: nat): string {
    "a:" + tab + ":#" + Decimal(n)
  }

  function ContentKey(tab: string, content: string): string {
    "x:" + tab + "|" + content
  }

  /** The comment at position `i` of a tab, in date order. */
  function CommentAt(t: Tab, i: nat): Comment
    requires i < TabSize(t)
  {
    match t
    case Xml(id, cs) =>
      ByDateSize(cs);
      Comment(ContentKey(id, ByDate(cs)[i].content), Some(AnchorKey(id, i + 1)), ByDate(cs)[i].body)
    case Anchors(id, _) => Comment(AnchorKey(id, i + 1), None, "")
  }

  function TabSize(t: Tab): nat {
    match t case Xml(_, cs) => |cs| case Anchors(_, count) => count
  }

  lemma {:induction false} ByDateSize(cs: seq<Stored>)
    ensures |ByDate(cs)| == |cs|
  {
    ByDateIsStableSort(cs, 0);
    assert |multiset(ByDate(cs))| == |multiset(cs)|;
  }

  /** The comments of a tab from position `from` on. */
  function TabComments(t: Tab, from: nat): seq<Comment>
    decreases TabSize(t) - from
  {
    if from >= TabSize(t) then [] else [CommentAt(t, from)] + TabComments(t, from + 1)
  }

  function Read(tabs: seq<Tab>): seq<Comment> {
    if tabs == [] then [] else TabComments(tabs[0], 0) + Read(tabs[1..])
  }

  // ----- ordinals name places -----

  /** Length of the part after the last `#`. */
  function TailLength(s: string): nat {
    if s == [] || s[|s| - 1] == '#' then 0 else 1 + TailLength(s[..|s| - 1])
  }

  lemma {:induction false} TailOfNumbered(head: string, digits: string)
    requires AllDigits(digits)
    ensures TailLength(head + "#" + digits) == |digits|
    decreases digits
  {
    var s := head + "#" + digits;
    if digits != [] {
      assert s[..|s| - 1] == head + "#" + digits[..|digits| - 1];
      TailOfNumbered(head, digits[..|digits| - 1]);
    }
  }

  /** Different places have different anchor keys, whatever the tab ids look like. */
  lemma AnchorKeyInjective(t: string, i: nat, u: string, j: nat)
    requires AnchorKey(t, i) == AnchorKey(u, j)
    ensures t == u && i == j
  {
    var a, b := "a:" + t + ":", "a:" + u + ":";
    assert AnchorKey(t, i) == a + "#" + Decimal(i) && AnchorKey(u, j) == b + "#" + Decimal(j);
    TailOfNumbered(a, Decimal(i));
    TailOfNumbered(b, Decimal(j));
    var s := AnchorKey(t, i);
    assert Decimal(i) == s[|a| + 1..] && Decimal(j) == s[|b| + 1..];
    DecimalRoundTrip(i);
    DecimalRoundTrip(j);
    assert a == s[..|a|] && b == s[..|b|];
    assert t == a[2..|a| - 1] && u == b[2..|b| - 1];
  }

  lemma KeysAreApart(t: string, i: nat, u: string, content: string)
    ensures AnchorKey(t, i) != ContentKey(u, content)
    ensures "a:" <= AnchorKey(t, i) && !("a:" <= ContentKey(u, content))
  {
    assert AnchorKey(t, i)[0] == 'a' && ContentKey(u, content)[0] == 'x';
  }

  predicate DistinctTabs(tabs: seq<Tab>) {
    forall i, j :: 0 <= i < j < |tabs| ==> tabs[i].id != tabs[j].id
  }

  // ----- how often a place is a key -----

  lemma {:induction false} KeysConcat(xs: seq<Comment>, ys: seq<Comment>, byOrdinal: bool)
    ensures Keys(xs + ys, byOrdinal) == Keys(xs, byOrdinal) + Keys(ys, byOrdinal)
    decreases ys
  {
    if ys == [] {
      assert xs + ys == xs;
    } else {
      EndOf(xs, ys);
      KeysConcat(xs, ys[..|ys| - 1], byOrdinal);
    }
  }

  predicate KeyedByPlace(t: Tab, byOrdinal: bool) {
    byOrdinal || t.Anchors?
  }

  /** How often the comments of a tab, from `from` on, have place `j` of tab `id` as their key. */
  function PlaceCount(t: Tab, from: nat, byOrdinal: bool, id: string, j: nat): nat {
    if KeyedByPlace(t, byOrdinal) && t.id == id && from < j <= TabSize(t) then 1 else 0
  }

  lemma PlaceOfComment(t: Tab, i: nat, byOrdinal: bool, id: string, j: nat)
    requires i < TabSize(t)
    ensures KeyUnder(CommentAt(t, i), byOrdinal) == AnchorKey(id, j) <==>
              KeyedByPlace(t, byOrdinal) && t.id == id && j == i + 1
  {
    if KeyedByPlace(t, byOrdinal) {
      if AnchorKey(t.id, i + 1) == AnchorKey(id, j) { AnchorKeyInjective(t.id, i + 1, id, j); }
    } else {
      ByDateSize(t.comments);
      KeysAreApart(id, j, t.id, ByDate(t.comments)[i].content);
    }
  }

  lemma KeysOfOne(c: Comment, byOrdinal: bool)
    ensures Keys([c], byOrdinal) == [KeyUnder(c, byOrdinal)]
  {
    Single(c);
  }

  lemma {:induction false} PlacesOfTab(t: Tab, from: nat, byOrdinal: bool, id: string, j: nat)
    ensures multiset(Keys(TabComments(t, from), byOrdinal))[AnchorKey(id, j)] == PlaceCount(t, from, byOrdinal, id, j)
    decreases TabSize(t) - from
  {
    if from < TabSize(t) {
      var c := CommentAt(t, from);
      PlacesOfTab(t, from + 1, byOrdinal, id, j);
      PlaceOfComment(t, from, byOrdinal, id, j);
      KeysOfOne(c, byOrdinal);
      KeysConcat([c], TabComments(t, from + 1), byOrdinal);
    }
  }

  function Places(tabs: seq<Tab>, byOrdinal: bool, id: string, j: nat): nat {
    if tabs == [] then 0 else PlaceCount(tabs[0], 0, byOrdinal, id, j) + Places(tabs[1..], byOrdinal, id, j)
  }

  lemma {:induction false} PlacesOfTabs(tabs: seq<Tab>, byOrdinal: bool, id: string, j: nat)
    ensures multiset(Keys(Read(tabs), byOrdinal))[AnchorKey(id, j)] == Places(tabs, byOrdinal, id, j)
    decreases tabs
  {
    if tabs != [] {
      PlacesOfTab(tabs[0], 0, byOrdinal, id, j);
      PlacesOfTabs(tabs[1..], byOrdinal, id, j);
      KeysConcat(TabComments(tabs[0], 0), Read(tabs[1..]), byOrdinal);
    }
  }

  // ----- from anchors only to stored comments -----

  predicate AnchorsOnly(tabs: seq<Tab>) {
    forall i :: 0 <= i < |tabs| ==> tabs[i].Anchors?
  }

  /** How many tabs of this id have a comment, or an anchor, at place `j`. */
  function Reaching(tabs: seq<Tab>, id: string, j: nat): nat {
    Places(tabs, true, id, j)
  }

  /** The comment at position `i` is new when earlier tabs of its id took that place as often as tabs before had it. */
  function IfNew(before: seq<Tab>, earlier: seq<Tab>, t: Tab, i: nat): seq<Comment>
    requires i < TabSize(t)
  {
    if Reaching(earlier, t.id, i + 1) >= Reaching(before, t.id, i + 1) then [CommentAt(t, i)] else []
  }

  function NewIn(before: seq<Tab>, earlier: seq<Tab>, t: Tab, from: nat): seq<Comment>
    decreases TabSize(t) - from
  {
    if from >= TabSize(t) then [] else IfNew(before, earlier, t, from) + NewIn(before, earlier, t, from + 1)
  }

  function NewPlaces(before: seq<Tab>, earlier: seq<Tab>, after: seq<Tab>): seq<Comment>
    decreases after
  {
    if after == [] then []
    else NewIn(before, earlier, after[0], 0) + NewPlaces(before, earlier + [after[0]], after[1..])
  }

  predicate PlacesKeyed(tabs: seq<Tab>, byOrdinal: bool) {
    forall i :: 0 <= i < |tabs| ==> KeyedByPlace(tabs[i], byOrdinal) || TabSize(tabs[i]) == 0
  }

  lemma {:induction false} PlacesEither(tabs: seq<Tab>, byOrdinal: bool, id: string, j: nat)
    requires PlacesKeyed(tabs, byOrdinal)
    ensures Places(tabs, byOrdinal, id, j) == Reaching(tabs, id, j)
    decreases tabs
  {
    if tabs != [] {
      assert forall i :: 0 <= i < |tabs| - 1 ==> tabs[1..][i] == tabs[i + 1];
      PlacesEither(tabs[1..], byOrdinal, id, j);
    }
  }

  /** From place `from` on, what went by holds the places of the earlier tabs. */
  ghost predicate CountedFrom(past: seq<Comment>, earlier: seq<Tab>, byOrdinal: bool, id: string, from: nat) {
    forall j: nat :: j > from ==> multiset(Keys(past, byOrdinal))[AnchorKey(id, j)] == Reaching(earlier, id, j)
  }

  lemma CountedOneMore(past: seq<Comment>, earlier: seq<Tab>, t: Tab, from: nat, byOrdinal: bool)
    requires from < TabSize(t) && CountedFrom(past, earlier, byOrdinal, t.id, from)
    ensures CountedFrom(past + [CommentAt(t, from)], earlier, byOrdinal, t.id, from + 1)
  {
    var c := CommentAt(t, from);
    forall j: nat | j > from + 1
      ensures multiset(Keys(past + [c], byOrdinal))[AnchorKey(t.id, j)] == Reaching(earlier, t.id, j)
    {
      KeysOneMore(past, c, byOrdinal);
      PlaceOfComment(t, from, byOrdinal, t.id, j);
    }
  }

  /** `had` counts the places of the tabs before. */
  ghost predicate HadPlaces(had: multiset<string>, before: seq<Tab>) {
    forall id: string, j: nat :: had[AnchorKey(id, j)] == Reaching(before, id, j)
  }

  /** Comments `cs` after `past` add `found` to what is new. */
  predicate Adds(had: multiset<string>, past: seq<Comment>, cs: seq<Comment>, byOrdinal: bool, found: seq<Comment>) {
    Beyond(had, past + cs, byOrdinal) == Beyond(had, past, byOrdinal) + found
  }

  lemma AddsNothing(had: multiset<string>, past: seq<Comment>, byOrdinal: bool)
    ensures Adds(had, past, [], byOrdinal, [])
  {
    Unit(past);
    Unit(Beyond(had, past, byOrdinal));
  }

  lemma AddsBoth(had: multiset<string>, past: seq<Comment>, xs: seq<Comment>, ys: seq<Comment>, byOrdinal: bool,
      f: seq<Comment>, g: seq<Comment>)
    requires Adds(had, past, xs, byOrdinal, f) && Adds(had, past + xs, ys, byOrdinal, g)
    ensures Adds(had, past, xs + ys, byOrdinal, f + g)
  {
    Associative(past, xs, ys);
    Associative(Beyond(had, past, byOrdinal), f, g);
  }

  lemma NewAtPlace(had: multiset<string>, past: seq<Comment>, before: seq<Tab>, earlier: seq<Tab>, t: Tab, from: nat,
      byOrdinal: bool)
    requires KeyedByPlace(t, byOrdinal) && CountedFrom(past, earlier, byOrdinal, t.id, from) && from < TabSize(t)
    requires HadPlaces(had, before)
    ensures Adds(had, past, [CommentAt(t, from)], byOrdinal, IfNew(before, earlier, t, from))
  {
    PlaceOfComment(t, from, byOrdinal, t.id, from + 1);
    BeyondOneMore(had, past, CommentAt(t, from), byOrdinal);
    Unit(Beyond(had, past, byOrdinal));
  }

  lemma {:induction false} NewInTab(had: multiset<string>, past: seq<Comment>, before: seq<Tab>, earlier: seq<Tab>,
      t: Tab, from: nat, byOrdinal: bool)
    requires KeyedByPlace(t, byOrdinal) && CountedFrom(past, earlier, byOrdinal, t.id, from) && from <= TabSize(t)
    requires HadPlaces(had, before)
    ensures Adds(had, past, TabComments(t, from), byOrdinal, NewIn(before, earlier, t, from))
    decreases TabSize(t) - from
  {
    if from == TabSize(t) {
      AddsNothing(had, past, byOrdinal);
    } else {
      var c := CommentAt(t, from);
      CountedOneMore(past, earlier, t, from, byOrdinal);
      NewAtPlace(had, past, before, earlier, t, from, byOrdinal);
      NewInTab(had, past + [c], before, earlier, t, from + 1, byOrdinal);
      AddsBoth(had, past, [c], TabComments(t, from + 1), byOrdinal, IfNew(before, earlier, t, from),
        NewIn(before, earlier, t, from + 1));
    }
  }

  lemma {:induction false} ReadOneMore(tabs: seq<Tab>, t: Tab)
    ensures Read(tabs + [t]) == Read(tabs) + TabComments(t, 0)
    decreases tabs
  {
    if tabs == [] {
      Unit([t]);
      Single(t);
      Unit(TabComments(t, 0));
    } else {
      HeadOf(tabs, [t]);
      ReadOneMore(tabs[1..], t);
      Associative(TabComments(tabs[0], 0), Read(tabs[1..]), TabComments(t, 0));
    }
  }

  lemma EarlierCounted(earlier: seq<Tab>, byOrdinal: bool, id: string)
    requires PlacesKeyed(earlier, byOrdinal)
    ensures CountedFrom(Read(earlier), earlier, byOrdinal, id, 0)
  {
    forall j: nat | j > 0
      ensures multiset(Keys(Read(earlier), byOrdinal))[AnchorKey(id, j)] == Reaching(earlier, id, j)
    {
      PlacesOfTabs(earlier, byOrdinal, id, j);
      PlacesEither(earlier, byOrdinal, id, j);
    }
  }

  lemma OneTab(had: multiset<string>, before: seq<Tab>, earlier: seq<Tab>, t: Tab, byOrdinal: bool)
    requires PlacesKeyed(earlier, byOrdinal) && PlacesKeyed([t], byOrdinal) && HadPlaces(had, before)
    ensures Adds(had, Read(earlier), TabComments(t, 0), byOrdinal, NewIn(before, earlier, t, 0))
  {
    if TabSize(t) == 0 {
      AddsNothing(had, Read(earlier), byOrdinal);
    } else {
      assert KeyedByPlace([t][0], byOrdinal);
      EarlierCounted(earlier, byOrdinal, t.id);
      NewInTab(had, Read(earlier), before, earlier, t, 0, byOrdinal);
    }
  }

  lemma {:induction false} NewInTabs(had: multiset<string>, before: seq<Tab>, earlier: seq<Tab>, after: seq<Tab>,
      byOrdinal: bool)
    requires PlacesKeyed(earlier, byOrdinal) && PlacesKeyed(after, byOrdinal) && HadPlaces(had, before)
    ensures Adds(had, Read(earlier), Read(after), byOrdinal, NewPlaces(before, earlier, after))
    decreases after
  {
    if after == [] {
      AddsNothing(had, Read(earlier), byOrdinal);
    } else {
      var t, rest := after[0], after[1..];
      assert forall i :: 0 <= i < |rest| ==> rest[i] == after[i + 1];
      OneTab(had, before, earlier, t, byOrdinal);
      ReadOneMore(earlier, t);
      NewInTabs(had, before, earlier + [t], rest, byOrdinal);
      AddsBoth(had, Read(earlier), TabComments(t, 0), Read(rest), byOrdinal, NewIn(before, earlier, t, 0),
        NewPlaces(before, earlier + [t], rest));
    }
  }

  lemma {:induction false} AllNewAfterNothing(cs: seq<Comment>, byOrdinal: bool)
    ensures Beyond(multiset{}, cs, byOrdinal) == cs
    decreases cs
  {
    if cs != [] {
      AllNewAfterNothing(cs[..|cs| - 1], byOrdinal);
      InitLast(cs);
    }
  }

  lemma {:induction false} ReadHolds(tabs: seq<Tab>, c: Comment)
    ensures c in Read(tabs) <==>
              exists i, k :: 0 <= i < |tabs| && 0 <= k < TabSize(tabs[i]) && c == CommentAt(tabs[i], k)
    decreases tabs
  {
    if tabs != [] {
      ReadHolds(tabs[1..], c);
      TabHolds(tabs[0], 0, c);
      if c in Read(tabs[1..]) {
        var i, k :| 0 <= i < |tabs[1..]| && 0 <= k < TabSize(tabs[1..][i]) && c == CommentAt(tabs[1..][i], k);
        assert tabs[1..][i] == tabs[i + 1];
      }
      if i, k :| 0 <= i < |tabs| && 0 <= k < TabSize(tabs[i]) && c == CommentAt(tabs[i], k) {
        if i > 0 { assert tabs[1..][i - 1] == tabs[i]; }
      }
    }
  }

  lemma {:induction false} TabHolds(t: Tab, from: nat, c: Comment)
    ensures c in TabComments(t, from) <==> exists k :: from <= k < TabSize(t) && c == CommentAt(t, k)
    decreases TabSize(t) - from
  {
    if from < TabSize(t) { TabHolds(t, from + 1, c); }
  }

  predicate HasAnchors(tabs: seq<Tab>) {
    exists i :: 0 <= i < |tabs| && tabs[i].Anchors? && tabs[i].count > 0
  }

  predicate HasStored(tabs: seq<Tab>) {
    exists i :: 0 <= i < |tabs| && tabs[i].Xml? && tabs[i].comments != []
  }

  lemma KindOfComment(t: Tab, k: nat)
    requires k < TabSize(t)
    ensures AnchorKeyed(CommentAt(t, k)) <==> t.Anchors?
    ensures CommentAt(t, k).ordinal.Some? <==> t.Xml?
  {
    if t.Xml? {
      ByDateSize(t.comments);
      KeysAreApart(t.id, 1, t.id, ByDate(t.comments)[k].content);
    } else {
      KeysAreApart(t.id, k + 1, t.id, "");
    }
  }

  lemma AnchorsShow(tabs: seq<Tab>)
    ensures (exists c :: c in Read(tabs) && AnchorKeyed(c)) <==> HasAnchors(tabs)
  {
    if c :| c in Read(tabs) && AnchorKeyed(c) {
      ReadHolds(tabs, c);
      var i, k :| 0 <= i < |tabs| && 0 <= k < TabSize(tabs[i]) && c == CommentAt(tabs[i], k);
      KindOfComment(tabs[i], k);
    }
    if HasAnchors(tabs) {
      var i :| 0 <= i < |tabs| && tabs[i].Anchors? && tabs[i].count > 0;
      var c := CommentAt(tabs[i], 0);
      KindOfComment(tabs[i], 0);
      ReadHolds(tabs, c);
      assert c in Read(tabs);
    }
  }

  lemma OrdinalsShow(tabs: seq<Tab>)
    ensures (exists c :: c in Read(tabs) && c.ordinal.Some?) <==> HasStored(tabs)
  {
    if c :| c in Read(tabs) && c.ordinal.Some? {
      ReadHolds(tabs, c);
      var i, k :| 0 <= i < |tabs| && 0 <= k < TabSize(tabs[i]) && c == CommentAt(tabs[i], k);
      KindOfComment(tabs[i], k);
    }
    if HasStored(tabs) {
      var i :| 0 <= i < |tabs| && tabs[i].Xml? && tabs[i].comments != [];
      var c := CommentAt(tabs[i], 0);
      KindOfComment(tabs[i], 0);
      ReadHolds(tabs, c);
      assert c in Read(tabs);
    }
  }

  /** The ordinal comparison is chosen by the kinds of tabs alone. */
  lemma ModeOfTabs(before: seq<Tab>, after: seq<Tab>)
    ensures ByOrdinal(Read(before), Read(after)) <==> HasAnchors(before) && HasStored(after)
  {
    AnchorsShow(before);
    OrdinalsShow(after);
  }

  lemma {:induction false} NoAnchorsNoComments(tabs: seq<Tab>)
    requires AnchorsOnly(tabs) && !HasAnchors(tabs)
    ensures Read(tabs) == []
    decreases tabs
  {
    if tabs != [] {
      assert tabs[0].count == 0;
      assert forall i :: 0 <= i < |tabs| - 1 ==> tabs[1..][i] == tabs[i + 1];
      NoAnchorsNoComments(tabs[1..]);
    }
  }

  lemma {:induction false} AllNewInTab(before: seq<Tab>, earlier: seq<Tab>, t: Tab, from: nat)
    requires forall j: nat :: Reaching(before, t.id, j) == 0
    ensures NewIn(before, earlier, t, from) == TabComments(t, from)
    decreases TabSize(t) - from
  {
    if from < TabSize(t) { AllNewInTab(before, earlier, t, from + 1); }
  }

  lemma {:induction false} AllNewPlaces(before: seq<Tab>, earlier: seq<Tab>, after: seq<Tab>)
    requires forall id: string, j: nat :: Reaching(before, id, j) == 0
    ensures NewPlaces(before, earlier, after) == Read(after)
    decreases after
  {
    if after != [] {
      AllNewInTab(before, earlier, after[0], 0);
      AllNewPlaces(before, earlier + [after[0]], after[1..]);
    }
  }

  /** The tabs that carry anchors only. */
  function AnchorTabs(tabs: seq<Tab>): seq<Tab> {
    if tabs == [] then [] else (if tabs[0].Anchors? then [tabs[0]] else []) + AnchorTabs(tabs[1..])
  }

  /** By content, only the anchors of a document count as places. */
  lemma {:induction false} PlacesOfAnchors(tabs: seq<Tab>, id: string, j: nat)
    ensures Places(tabs, false, id, j) == Reaching(AnchorTabs(tabs), id, j)
    decreases tabs
  {
    if tabs != [] {
      PlacesOfAnchors(tabs[1..], id, j);
      if tabs[0].Anchors? { Cons(tabs[0], AnchorTabs(tabs[1..])); } else { Unit(AnchorTabs(tabs[1..])); }
    }
  }

  /**
   * A document that had anchors, beside stored comments or not: whatever it is saved as, the comment at a
   * place of a tab is new exactly when the tabs of that id before it in the saved document reached the
   * place as often as the old tabs with anchors did. The stored comments it had count for nothing.
   */
  lemma AnchorsDecide(before: seq<Tab>, after: seq<Tab>)
    requires HasAnchors(before)
    ensures NewOf(Some(Read(before)), Some(Read(after))) == NewPlaces(AnchorTabs(before), [], after)
  {
    ModeOfTabs(before, after);
    var had := multiset(Keys(Read(before), false));
    forall id: string, j: nat ensures had[AnchorKey(id, j)] == Reaching(AnchorTabs(before), id, j) {
      PlacesOfTabs(before, false, id, j);
      PlacesOfAnchors(before, id, j);
    }
    NewInTabs(had, AnchorTabs(before), [], after, HasStored(after));
    Unit(Read(after));
    Unit(NewPlaces(AnchorTabs(before), [], after));
  }

  lemma {:induction false} AnchorTabsOfAnchors(tabs: seq<Tab>)
    requires AnchorsOnly(tabs)
    ensures AnchorTabs(tabs) == tabs
    decreases tabs
  {
    if tabs != [] {
      assert forall i :: 0 <= i < |tabs| - 1 ==> tabs[1..][i] == tabs[i + 1];
      AnchorTabsOfAnchors(tabs[1..]);
      FirstRest(tabs);
    }
  }

  /** A document that had anchors only: each place is compared with the places it had. */
  lemma AnchorsToComments(before: seq<Tab>, after: seq<Tab>)
    requires AnchorsOnly(before)
    ensures NewOf(Some(Read(before)), Some(Read(after))) == NewPlaces(before, [], after)
  {
    AnchorTabsOfAnchors(before);
    if HasAnchors(before) {
      AnchorsDecide(before, after);
    } else {
      NoAnchorsNoComments(before);
      AllNewAfterNothing(Read(after), false);
      ModeOfTabs(before, after);
      forall id: string, j: nat ensures Reaching(before, id, j) == 0 {
        PlacesOfTabs(before, false, id, j);
        PlacesOfAnchors(before, id, j);
      }
      AllNewPlaces(before, [], after);
    }
  }

  // ----- tabs with ids of their own -----

  predicate HasTab(tabs: seq<Tab>, id: string) {
    exists i :: 0 <= i < |tabs| && tabs[i].id == id
  }

  /** How many comments or anchors the tab of an id has. */
  function SizeOf(tabs: seq<Tab>, id: string): nat {
    if tabs == [] then 0 else if tabs[0].id == id then TabSize(tabs[0]) else SizeOf(tabs[1..], id)
  }

  /** In every tab, the comments past the number of anchors the tab had. */
  function Tails(before: seq<Tab>, after: seq<Tab>): seq<Comment> {
    if after == [] then [] else TabComments(after[0], SizeOf(before, after[0].id)) + Tails(before, after[1..])
  }

  lemma {:induction false} NoneReaches(tabs: seq<Tab>, id: string, j: nat)
    requires !HasTab(tabs, id)
    ensures Reaching(tabs, id, j) == 0
    decreases tabs
  {
    if tabs != [] {
      assert forall i :: 0 <= i < |tabs| - 1 ==> tabs[1..][i] == tabs[i + 1];
      assert tabs[0].id != id;
      NoneReaches(tabs[1..], id, j);
    }
  }

  lemma DistinctTail(tabs: seq<Tab>)
    requires DistinctTabs(tabs) && tabs != []
    ensures DistinctTabs(tabs[1..]) && !HasTab(tabs[1..], tabs[0].id)
  {
    assert forall i :: 0 <= i < |tabs| - 1 ==> tabs[1..][i] == tabs[i + 1];
  }

  lemma {:induction false} OneReaches(tabs: seq<Tab>, id: string, j: nat)
    requires DistinctTabs(tabs)
    ensures Reaching(tabs, id, j) == if 0 < j <= SizeOf(tabs, id) then 1 else 0
    decreases tabs
  {
    if tabs != [] {
      DistinctTail(tabs);
      if tabs[0].id == id {
        NoneReaches(tabs[1..], id, j);
      } else {
        OneReaches(tabs[1..], id, j);
      }
    }
  }

  lemma {:induction false} NewIsTail(before: seq<Tab>, earlier: seq<Tab>, t: Tab, from: nat)
    requires DistinctTabs(before) && !HasTab(earlier, t.id)
    ensures NewIn(before, earlier, t, from) == TabComments(t, Max(from, SizeOf(before, t.id)))
    decreases TabSize(t) - from
  {
    if from < TabSize(t) {
      NoneReaches(earlier, t.id, from + 1);
      OneReaches(before, t.id, from + 1);
      NewIsTail(before, earlier, t, from + 1);
      Unit(NewIn(before, earlier, t, from + 1));
    }
  }

  lemma {:induction false} NewAreTails(before: seq<Tab>, earlier: seq<Tab>, after: seq<Tab>)
    requires DistinctTabs(before) && DistinctTabs(after)
    requires forall i :: 0 <= i < |after| ==> !HasTab(earlier, after[i].id)
    ensures NewPlaces(before, earlier, after) == Tails(before, after)
    decreases after
  {
    if after != [] {
      var t, rest := after[0], after[1..];
      DistinctTail(after);
      NewIsTail(before, earlier, t, 0);
      forall i | 0 <= i < |rest| ensures !HasTab(earlier + [t], rest[i].id) {
        assert rest[i] == after[i + 1];
      }
      NewAreTails(before, earlier + [t], rest);
    }
  }

  /** With ids of their own, in each tab exactly the comments past the number of anchors, in date order, are new. */
  lemma AnchorsToTails(before: seq<Tab>, after: seq<Tab>)
    requires AnchorsOnly(before) && DistinctTabs(before) && DistinctTabs(after)
    ensures NewOf(Some(Read(before)), Some(Read(after))) == Tails(before, after)
  {
    AnchorsToComments(before, after);
    NewAreTails(before, [], after);
  }

  lemma NoKeysNoComments(cs: seq<Comment>, byOrdinal: bool)
    requires multiset(Keys(cs, byOrdinal)) == multiset{}
    ensures cs == []
  {
    KeysMembers(cs, byOrdinal);
    assert |multiset(Keys(cs, byOrdinal))| == |cs|;
  }

  /** In ordinal mode every comment is keyed by a place. */
  lemma OrdinalKeysArePlaces(tabs: seq<Tab>, c: Comment)
    requires c in Read(tabs)
    ensures "a:" <= KeyUnder(c, true)
  {
    ReadHolds(tabs, c);
    var i, k :| 0 <= i < |tabs| && 0 <= k < TabSize(tabs[i]) && c == CommentAt(tabs[i], k);
    KeysAreApart(tabs[i].id, k + 1, tabs[i].id, "");
  }

  lemma NoContentKeyByOrdinal(tabs: seq<Tab>, id: string, content: string)
    ensures ContentKey(id, content) !in Keys(Read(tabs), true)
  {
    KeysMembers(Read(tabs), true);
    KeysAreApart("", 0, id, content);
    forall i | 0 <= i < |Read(tabs)| ensures Keys(Read(tabs), true)[i] != ContentKey(id, content) {
      OrdinalKeysArePlaces(tabs, Read(tabs)[i]);
    }
  }

  /** A stored comment is keyed by its content in a document that is not compared by ordinal. */
  lemma StoredHasContentKey(tabs: seq<Tab>, i: nat)
    requires i < |tabs| && tabs[i].Xml? && tabs[i].comments != []
    ensures CommentAt(tabs[i], 0).key in Keys(Read(tabs), false)
  {
    var c := CommentAt(tabs[i], 0);
    ReadHolds(tabs, c);
    KeysMembers(Read(tabs), false);
    var k :| 0 <= k < |Read(tabs)| && Read(tabs)[k] == c;
    assert Keys(Read(tabs), false)[k] == c.key;
  }

  lemma KeyOnlyBefore(tabs: seq<Tab>) returns (key: string)
    requires HasStored(tabs)
    ensures key in Keys(Read(tabs), false) && key !in Keys(Read(tabs), true)
  {
    var i :| 0 <= i < |tabs| && tabs[i].Xml? && tabs[i].comments != [];
    StoredHasContentKey(tabs, i);
    ByDateSize(tabs[i].comments);
    NoContentKeyByOrdinal(tabs, tabs[i].id, ByDate(tabs[i].comments)[0].content);
    key := CommentAt(tabs[i], 0).key;
  }

  lemma SameSizeSubset(all: multiset<string>, had: multiset<string>)
    requires all - had == multiset{} && |all| == |had|
    ensures all == had
  {
    forall k ensures all[k] <= had[k] {
      assert (all - had)[k] == 0;
    }
    assert had == all + (had - all);
  }

  lemma LeftOver(all: multiset<string>, had: multiset<string>, key: string)
    requires |all| == |had| && key in had && key !in all
    ensures all - had != multiset{}
  {
    if all - had == multiset{} { SameSizeSubset(all, had); }
  }

  /** The stored comments of a mixed document find no key among those it had before. */
  lemma MixedHasNew(tabs: seq<Tab>)
    requires HasStored(tabs)
    ensures multiset(Keys(Read(tabs), true)) - multiset(Keys(Read(tabs), false)) != multiset{}
  {
    var cs := Read(tabs);
    var key := KeyOnlyBefore(tabs);
    KeysMembers(cs, true);
    KeysMembers(cs, false);
    LeftOver(multiset(Keys(cs, true)), multiset(Keys(cs, false)), key);
  }

  /** An unchanged document has no new comments, unless it mixes anchors with stored comments. */
  lemma UnchangedHasNothingNew(tabs: seq<Tab>)
    ensures NewOf(Some(Read(tabs)), Some(Read(tabs))) == [] <==> !(HasAnchors(tabs) && HasStored(tabs))
  {
    var had, mixed := multiset(Keys(Read(tabs), false)), HasAnchors(tabs) && HasStored(tabs);
    ModeOfTabs(tabs, tabs);
    BeyondCounts(had, Read(tabs), mixed);
    var found := Beyond(had, Read(tabs), mixed);
    assert multiset(Keys(found, mixed)) == multiset(Keys(Read(tabs), mixed)) - had;
    if mixed {
      MixedHasNew(tabs);
    } else {
      NoKeysNoComments(found, mixed);
    }
  }

  // ----- what a comment shows -----

  lemma {:induction false} CommentsInOrder(t: Tab, from: nat, m: nat)
    requires from + m < TabSize(t)
    ensures |TabComments(t, from)| == TabSize(t) - from && TabComments(t, from)[m] == CommentAt(t, from + m)
    decreases TabSize(t) - from
  {
    if m > 0 {
      CommentsInOrder(t, from + 1, m - 1);
    } else if from + 1 < TabSize(t) {
      CommentsInOrder(t, from + 1, 0);
    }
  }

  /** A stored comment is keyed by its tab and content, and placed and shown in date order. */
  lemma StoredComment(id: string, cs: seq<Stored>, m: nat)
    requires m < |cs|
    ensures |ByDate(cs)| == |cs| && |Read([Xml(id, cs)])| == |cs|
    ensures var c := Read([Xml(id, cs)])[m];
            c.key == "x:" + id + "|" + ByDate(cs)[m].content &&
            c.ordinal == Some("a:" + id + ":#" + Decimal(m + 1)) && c.body == ByDate(cs)[m].body
  {
    ByDateSize(cs);
    ReadOneTab(Xml(id, cs));
    CommentsInOrder(Xml(id, cs), 0, m);
  }

  /** An anchor is keyed by its tab and place, and says nothing. */
  lemma AnchorComment(id: string, count: nat, m: nat)
    requires m < count
    ensures |Read([Anchors(id, count)])| == count
    ensures Read([Anchors(id, count)])[m] == Comment("a:" + id + ":#" + Decimal(m + 1), None, "")
  {
    ReadOneTab(Anchors(id, count));
    CommentsInOrder(Anchors(id, count), 0, m);
  }

  lemma ReadOneTab(t: Tab)
    ensures Read([t]) == TabComments(t, 0)
  {
    Single(t);
    Unit(TabComments(t, 0));
    assert Read([]) == [];
  }
}
