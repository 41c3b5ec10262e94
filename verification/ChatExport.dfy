/** Gathering a hub's chat into export sections: folder chats first, then file threads, in tree order. */
module ChatExport {
  import opened Options
  import opened FolderTree
  import opened Sequences

  const PAGE_SIZE := 45

  /** A row of the message feed; `fileNid` matters only for the card of a file thread. */
  datatype Row = Row(id: string, scope: string, threadCard: bool, fileNid: string)

  /** A message of the export; the card of a thread becomes an event naming its file. */
  datatype Msg = Msg(id: string, event: Option<string>)

  datatype Thread = Thread(threadId: string, fileNid: string, filename: string, folderNid: Option<string>)

  datatype Selection = All | Only(ids: seq<string>) | Nothing

  datatype Section =
    | FolderChat(nid: string, name: string, path: string, messages: seq<Msg>)
    | FileThread(threadId: string, folderNid: Option<string>, messages: seq<Msg>)

  // ----- a paginated feed -----

  /** `feed` hands out `all` in pages of PAGE_SIZE, numbered from 1, and nothing after its end. */
  ghost predicate Paged(feed: nat -> seq<Row>, all: seq<Row>) {
    forall page: nat :: page >= 1 ==>
      feed(page) == all[Min((page - 1) * PAGE_SIZE, |all|)..Min(page * PAGE_SIZE, |all|)]
  }

  // ----- what becomes of one row -----

  /** The thread a card stands for: the last one given for its file. */
  function ThreadOfFile(threads: seq<Thread>, fileNid: string): Option<Thread> {
    if threads == [] then None
    else if threads[|threads| - 1].fileNid == fileNid then Some(threads[|threads| - 1])
    else ThreadOfFile(threads[..|threads| - 1], fileNid)
  }

  predicate Retained(threads: seq<Thread>, row: Row) {
    row.threadCard ==> ThreadOfFile(threads, row.fileNid).Some?
  }

  function EventText(filename: string): string {
    "Chat thread started for \"" + (if filename == "" then "a file" else filename) + "\""
  }

  function MsgOf(threads: seq<Thread>, row: Row): Msg
    requires Retained(threads, row)
  {
    Msg(row.id, if row.threadCard then Some(EventText(ThreadOfFile(threads, row.fileNid).value.filename)) else None)
  }

  function KeyOf(row: Row, rootId: string): string {
    if row.scope != "" then row.scope else rootId
  }

  /** The messages filed under `key`, in feed order. */
  function Filed(rows: seq<Row>, threads: seq<Thread>, rootId: string, key: string): seq<Msg> {
    if rows == [] then []
    else
      var last := rows[|rows| - 1];
      Filed(rows[..|rows| - 1], threads, rootId, key) +
      (if Retained(threads, last) && KeyOf(last, rootId) == key then [MsgOf(threads, last)] else [])
  }

  // ----- the sections -----

  function Plain(rows: seq<Row>): seq<Msg> {
    seq(|rows|, i requires 0 <= i < |rows| => Msg(rows[i].id, None))
  }

  predicate Selects(sel: Selection, id: string) {
    match sel
    case All => true
    case Only(ids) => id in ids
    case Nothing => false
  }

  /** The folder axis; an explicit empty list reads nothing at all. */
  predicate IncludesFolders(sel: Selection) {
    sel.All? || (sel.Only? && sel.ids != [])
  }

  function SelectedThreads(threads: seq<Thread>, sel: Selection): seq<Thread> {
    if threads == [] then []
    else if Selects(sel, threads[0].threadId) then [threads[0]] + SelectedThreads(threads[1..], sel)
    else SelectedThreads(threads[1..], sel)
  }

  /** A selected folder with messages makes a section; any other folder makes none. */
  function FolderSection(p: Placed, sel: Selection, messages: seq<Msg>): seq<Section> {
    if Selects(sel, p.folder.id) && messages != [] then [FolderChat(p.folder.id, p.folder.name, p.path, messages)]
    else []
  }

  function FolderSections(placed: seq<Placed>, sel: Selection, rows: seq<Row>, threads: seq<Thread>,
      rootId: string): seq<Section> {
    if placed == [] then []
    else FolderSection(placed[0], sel, Filed(rows, threads, rootId, placed[0].folder.id)) +
         FolderSections(placed[1..], sel, rows, threads, rootId)
  }

  function SectionOf(t: Thread, folder: Option<Folder>, content: string -> seq<Row>): Section {
    FileThread(t.threadId,
      if t.folderNid.Some? then t.folderNid else if folder.Some? then Some(folder.value.id) else None,
      Plain(content(t.threadId)))
  }

  function ThreadIn(t: Thread, folder: Folder, content: string -> seq<Row>): seq<Section> {
    if t.folderNid == Some(folder.id) then [SectionOf(t, Some(folder), content)] else []
  }

  function ThreadsIn(threads: seq<Thread>, folder: Folder, content: string -> seq<Row>): seq<Section> {
    if threads == [] then []
    else ThreadIn(threads[0], folder, content) + ThreadsIn(threads[1..], folder, content)
  }

  function ThreadsByFolder(threads: seq<Thread>, placed: seq<Placed>, content: string -> seq<Row>): seq<Section> {
    if placed == [] then []
    else ThreadsIn(threads, placed[0].folder, content) + ThreadsByFolder(threads, placed[1..], content)
  }

  /** The ids of the threads some folder of the tree has emitted. */
  predicate Emitted(threads: seq<Thread>, placed: seq<Placed>, id: string) {
    exists i, j :: 0 <= i < |threads| && 0 <= j < |placed| &&
                   threads[i].threadId == id && threads[i].folderNid == Some(placed[j].folder.id)
  }

  function ThreadOutside(t: Thread, emitted: bool, content: string -> seq<Row>): seq<Section> {
    if emitted then [] else [SectionOf(t, None, content)]
  }

  /** The threads of `rest` outside the tree; `threads` are all selected ones. */
  function ThreadsOutside(rest: seq<Thread>, threads: seq<Thread>, placed: seq<Placed>,
      content: string -> seq<Row>): seq<Section> {
    if rest == [] then []
    else ThreadOutside(rest[0], Emitted(threads, placed, rest[0].threadId), content) +
         ThreadsOutside(rest[1..], threads, placed, content)
  }

  function RootId(placed: seq<Placed>): string {
    if placed == [] then "" else placed[0].folder.id
  }

  /** What an export gathers from the whole feed and the whole of every thread. */
  function Gathered(rows: seq<Row>, content: string -> seq<Row>, folderSel: Selection, threadSel: Selection,
      threads: seq<Thread>, placed: seq<Placed>): seq<Section> {
    Chats(rows, folderSel, threads, placed) + ThreadSections(SelectedThreads(threads, threadSel), placed, content)
  }

  /** Pass 1. */
  function Chats(rows: seq<Row>, sel: Selection, threads: seq<Thread>, placed: seq<Placed>): seq<Section> {
    if IncludesFolders(sel) then FolderSections(placed, sel, rows, threads, RootId(placed)) else []
  }

  /** Pass 2. */
  function ThreadSections(selected: seq<Thread>, placed: seq<Placed>, content: string -> seq<Row>): seq<Section> {
    ThreadsByFolder(selected, placed, content) + ThreadsOutside(selected, selected, placed, content)
  }

  // ----- conservation of folder messages -----

  /** All messages of a list of sections. */
  function Messages(sections: seq<Section>): seq<Msg> {
    if sections == [] then [] else sections[0].messages + Messages(sections[1..])
  }

  predicate Emits(placed: seq<Placed>, sel: Selection, key: string) {
    Selects(sel, key) && exists i :: 0 <= i < |placed| && placed[i].folder.id == key
  }

  /** The messages of the rows whose folder the export emits, in feed order. */
  function Kept(rows: seq<Row>, threads: seq<Thread>, rootId: string, placed: seq<Placed>, sel: Selection): seq<Msg> {
    if rows == [] then []
    else
      var last := rows[|rows| - 1];
      Kept(rows[..|rows| - 1], threads, rootId, placed, sel) +
      (if Retained(threads, last) && Emits(placed, sel, KeyOf(last, rootId)) then [MsgOf(threads, last)] else [])
  }

  /** Rows kept for the first folder and for the others are the rows kept for all. */
  lemma {:induction false} KeptSplits(rows: seq<Row>, threads: seq<Thread>, rootId: string, placed: seq<Placed>,
      sel: Selection)
    requires placed != [] && NoRepeat(placed)
    ensures multiset(Kept(rows, threads, rootId, placed, sel))
         == (if Selects(sel, placed[0].folder.id) then multiset(Filed(rows, threads, rootId, placed[0].folder.id))
             else multiset{}) +
            multiset(Kept(rows, threads, rootId, placed[1..], sel))
    decreases rows
  {
    if rows != [] {
      var last := rows[|rows| - 1];
      var key := KeyOf(last, rootId);
      KeptSplits(rows[..|rows| - 1], threads, rootId, placed, sel);
      EmitsSplits(placed, sel, key);
    }
  }

  lemma EmitsSplits(placed: seq<Placed>, sel: Selection, key: string)
    requires placed != [] && NoRepeat(placed)
    ensures Emits(placed, sel, key) <==> Emits([placed[0]], sel, key) || Emits(placed[1..], sel, key)
    ensures Emits([placed[0]], sel, key) <==> Selects(sel, key) && key == placed[0].folder.id
    ensures !(Emits([placed[0]], sel, key) && Emits(placed[1..], sel, key))
  {
    if Emits(placed, sel, key) && key != placed[0].folder.id {
      var i :| 0 <= i < |placed| && placed[i].folder.id == key;
      assert placed[1..][i - 1].folder.id == key;
    }
    if key == placed[0].folder.id { assert [placed[0]][0].folder.id == key; }
  }

  /** Nothing lost, nothing twice: folder sections hold exactly the rows whose folder is emitted. */
  lemma {:induction false} FolderMessagesConserved(placed: seq<Placed>, sel: Selection, rows: seq<Row>,
      threads: seq<Thread>, rootId: string)
    requires NoRepeat(placed)
    ensures multiset(Messages(FolderSections(placed, sel, rows, threads, rootId)))
         == multiset(Kept(rows, threads, rootId, placed, sel))
    decreases placed
  {
    if placed == [] {
      NothingKept(rows, threads, rootId, sel);
    } else {
      FolderMessagesConserved(placed[1..], sel, rows, threads, rootId);
      KeptSplits(rows, threads, rootId, placed, sel);
      var rest := FolderSections(placed[1..], sel, rows, threads, rootId);
      var f := placed[0].folder;
      var messages := Filed(rows, threads, rootId, f.id);
      if Selects(sel, f.id) && messages != [] {
        var head := FolderChat(f.id, f.name, placed[0].path, messages);
        assert ([head] + rest)[1..] == rest;
        assert Messages([head] + rest) == messages + Messages(rest);
      } else {
        Unit(rest);
      }
    }
  }

  lemma {:induction false} NothingKept(rows: seq<Row>, threads: seq<Thread>, rootId: string, sel: Selection)
    ensures Kept(rows, threads, rootId, [], sel) == []
    decreases rows
  {
    if rows != [] { NothingKept(rows[..|rows| - 1], threads, rootId, sel); }
  }

  /** A section is that of the `i`-th folder of the tree, and `later` are the sections after it. */
  predicate ComesFrom(section: Section, later: seq<Section>, placed: seq<Placed>, i: int, sel: Selection,
      rows: seq<Row>, threads: seq<Thread>, rootId: string) {
    0 <= i < |placed| && section.FolderChat? && placed[i].folder.id == section.nid && placed[i].path == section.path &&
    section.messages == Filed(rows, threads, rootId, section.nid) && section.messages != [] &&
    later == FolderSections(placed[i + 1..], sel, rows, threads, rootId)
  }

  ghost predicate FromTheTree(section: Section, later: seq<Section>, placed: seq<Placed>, sel: Selection,
      rows: seq<Row>, threads: seq<Thread>, rootId: string) {
    exists i :: ComesFrom(section, later, placed, i, sel, rows, threads, rootId)
  }

  /** The first folder's section, followed by those of the other folders. */
  lemma FromFirstFolder(placed: seq<Placed>, sel: Selection, rows: seq<Row>, threads: seq<Thread>, rootId: string)
    requires placed != []
    requires FolderSection(placed[0], sel, Filed(rows, threads, rootId, placed[0].folder.id)) != []
    ensures var s := FolderSections(placed, sel, rows, threads, rootId);
            FromTheTree(s[0], s[1..], placed, sel, rows, threads, rootId)
  {
    var s := FolderSections(placed, sel, rows, threads, rootId);
    var here := FolderSection(placed[0], sel, Filed(rows, threads, rootId, placed[0].folder.id));
    NextSections(here[0], FolderSections(placed[1..], sel, rows, threads, rootId), 0);
    assert ComesFrom(s[0], s[1..], placed, 0, sel, rows, threads, rootId);
  }

  /** Each folder section holds its own folder's rows in feed order, and folders come in tree order. */
  lemma {:induction false} FolderSectionsAre(placed: seq<Placed>, sel: Selection, rows: seq<Row>, threads: seq<Thread>,
      rootId: string, k: nat)
    requires k < |FolderSections(placed, sel, rows, threads, rootId)|
    ensures var s := FolderSections(placed, sel, rows, threads, rootId);
            FromTheTree(s[k], s[k + 1..], placed, sel, rows, threads, rootId)
    decreases placed
  {
    var s := FolderSections(placed, sel, rows, threads, rootId);
    var here := FolderSection(placed[0], sel, Filed(rows, threads, rootId, placed[0].folder.id));
    var rest := FolderSections(placed[1..], sel, rows, threads, rootId);
    if here == [] {
      Unit(rest);
      FolderSectionsAre(placed[1..], sel, rows, threads, rootId, k);
      FromLaterFolder(s[k], s[k + 1..], placed, sel, rows, threads, rootId);
    } else if k == 0 {
      FromFirstFolder(placed, sel, rows, threads, rootId);
    } else {
      NextSections(here[0], rest, k);
      FolderSectionsAre(placed[1..], sel, rows, threads, rootId, k - 1);
      FromLaterFolder(s[k], s[k + 1..], placed, sel, rows, threads, rootId);
    }
  }

  lemma NextSections(first: Section, rest: seq<Section>, k: nat)
    requires k <= |rest|
    ensures k == 0 ==> ([first] + rest)[1..] == rest
    ensures k > 0 ==> ([first] + rest)[k] == rest[k - 1] && ([first] + rest)[k + 1..] == rest[k..]
  {
  }

  lemma FromLaterFolder(section: Section, later: seq<Section>, placed: seq<Placed>, sel: Selection, rows: seq<Row>,
      threads: seq<Thread>, rootId: string)
    requires placed != [] && FromTheTree(section, later, placed[1..], sel, rows, threads, rootId)
    ensures FromTheTree(section, later, placed, sel, rows, threads, rootId)
  {
    var i :| ComesFrom(section, later, placed[1..], i, sel, rows, threads, rootId);
    assert placed[1..][i] == placed[i + 1] && placed[1..][i + 1..] == placed[i + 2..];
    assert ComesFrom(section, later, placed, i + 1, sel, rows, threads, rootId);
  }

  // ----- conservation of threads -----

  function ThreadIds(threads: seq<Thread>): seq<string> {
    if threads == [] then [] else [threads[0].threadId] + ThreadIds(threads[1..])
  }

  function SectionIds(sections: seq<Section>): seq<string>
    requires forall s <- sections :: s.FileThread?
  {
    if sections == [] then [] else [sections[0].threadId] + SectionIds(sections[1..])
  }

  predicate DistinctThreads(threads: seq<Thread>) {
    forall i, j :: 0 <= i < j < |threads| ==> threads[i].threadId != threads[j].threadId
  }

  predicate InTree(t: Thread, placed: seq<Placed>) {
    exists j :: 0 <= j < |placed| && t.folderNid == Some(placed[j].folder.id)
  }

  /** The ids of the threads whose folder is in the tree, or of the others. */
  function IdsWhere(threads: seq<Thread>, placed: seq<Placed>, inside: bool): seq<string> {
    if threads == [] then []
    else (if InTree(threads[0], placed) == inside then [threads[0].threadId] else []) +
         IdsWhere(threads[1..], placed, inside)
  }

  predicate AllThreads(sections: seq<Section>) {
    forall s <- sections :: s.FileThread?
  }

  lemma {:induction false} SectionIdsConcat(xs: seq<Section>, ys: seq<Section>)
    requires AllThreads(xs) && AllThreads(ys)
    ensures AllThreads(xs + ys) && SectionIds(xs + ys) == SectionIds(xs) + SectionIds(ys)
    decreases xs
  {
    if xs == [] {
      assert xs + ys == ys;
    } else {
      HeadOf(xs, ys);
      SectionIdsConcat(xs[1..], ys);
    }
  }

  /** The threads of the first folder and those of the others are the threads of the tree. */
  lemma {:induction false} TreeIdsSplit(threads: seq<Thread>, placed: seq<Placed>, content: string -> seq<Row>)
    requires placed != [] && NoRepeat(placed)
    ensures AllThreads(ThreadsIn(threads, placed[0].folder, content))
    ensures multiset(IdsWhere(threads, placed, true))
         == multiset(SectionIds(ThreadsIn(threads, placed[0].folder, content))) +
            multiset(IdsWhere(threads, placed[1..], true))
    decreases threads
  {
    if threads != [] {
      var t := threads[0];
      TreeIdsSplit(threads[1..], placed, content);
      InTreeSplits(t, placed);
      var rest := ThreadsIn(threads[1..], placed[0].folder, content);
      var head := ThreadIn(t, placed[0].folder, content);
      SectionIdsConcat(head, rest);
      assert head != [] ==> head[1..] == [] && SectionIds(head) == [t.threadId];
    }
  }

  lemma InTreeSplits(t: Thread, placed: seq<Placed>)
    requires placed != [] && NoRepeat(placed)
    ensures InTree(t, placed) <==> t.folderNid == Some(placed[0].folder.id) || InTree(t, placed[1..])
    ensures !(t.folderNid == Some(placed[0].folder.id) && InTree(t, placed[1..]))
  {
    if InTree(t, placed) && t.folderNid != Some(placed[0].folder.id) {
      var j :| 0 <= j < |placed| && t.folderNid == Some(placed[j].folder.id);
      assert placed[1..][j - 1] == placed[j];
    }
  }

  lemma {:induction false} TreeThreads(threads: seq<Thread>, placed: seq<Placed>, content: string -> seq<Row>)
    requires NoRepeat(placed)
    ensures AllThreads(ThreadsByFolder(threads, placed, content))
    ensures multiset(SectionIds(ThreadsByFolder(threads, placed, content))) == multiset(IdsWhere(threads, placed, true))
    decreases placed
  {
    if placed == [] {
      NoIdsWithoutTree(threads);
    } else {
      TreeThreads(threads, placed[1..], content);
      TreeIdsSplit(threads, placed, content);
      SectionIdsConcat(ThreadsIn(threads, placed[0].folder, content), ThreadsByFolder(threads, placed[1..], content));
    }
  }

  lemma {:induction false} NoIdsWithoutTree(threads: seq<Thread>)
    ensures IdsWhere(threads, [], true) == []
    decreases threads
  {
    if threads != [] { NoIdsWithoutTree(threads[1..]); }
  }

  lemma EmittedIsInTree(threads: seq<Thread>, placed: seq<Placed>, k: nat)
    requires DistinctThreads(threads) && k < |threads|
    ensures Emitted(threads, placed, threads[k].threadId) <==> InTree(threads[k], placed)
  {
    if InTree(threads[k], placed) {
      var j :| 0 <= j < |placed| && threads[k].folderNid == Some(placed[j].folder.id);
      assert threads[k].folderNid == Some(placed[j].folder.id);
    }
  }

  lemma {:induction false} OutsideThreads(threads: seq<Thread>, placed: seq<Placed>, content: string -> seq<Row>,
      k: nat)
    requires DistinctThreads(threads) && k <= |threads|
    ensures AllThreads(ThreadsOutside(threads[k..], threads, placed, content))
    ensures SectionIds(ThreadsOutside(threads[k..], threads, placed, content)) == IdsWhere(threads[k..], placed, false)
    decreases |threads| - k
  {
    if k < |threads| {
      OutsideThreads(threads, placed, content, k + 1);
      EmittedIsInTree(threads, placed, k);
      DropNext(threads, k);
      var rest := ThreadsOutside(threads[k + 1..], threads, placed, content);
      var head := ThreadOutside(threads[k], Emitted(threads, placed, threads[k].threadId), content);
      SectionIdsConcat(head, rest);
      assert head != [] ==> head[1..] == [];
    }
  }

  lemma {:induction false} InsideOrOutside(threads: seq<Thread>, placed: seq<Placed>)
    ensures multiset(IdsWhere(threads, placed, true)) + multiset(IdsWhere(threads, placed, false))
         == multiset(ThreadIds(threads))
    decreases threads
  {
    if threads != [] { InsideOrOutside(threads[1..], placed); }
  }

  /** Each selected thread gets exactly one section. */
  lemma ThreadsConserved(threads: seq<Thread>, placed: seq<Placed>, content: string -> seq<Row>)
    requires NoRepeat(placed) && DistinctThreads(threads)
    ensures var sections :=
              ThreadsByFolder(threads, placed, content) + ThreadsOutside(threads, threads, placed, content);
            AllThreads(sections) && multiset(SectionIds(sections)) == multiset(ThreadIds(threads))
  {
    TreeThreads(threads, placed, content);
    OutsideThreads(threads, placed, content, 0);
    Whole(threads);
    InsideOrOutside(threads, placed);
    SectionIdsConcat(ThreadsByFolder(threads, placed, content), ThreadsOutside(threads, threads, placed, content));
  }

  // ----- the order of the thread sections -----

  predicate InFolder(t: Thread, folder: Folder) {
    t.folderNid == Some(folder.id)
  }

  /** The place of a thread's folder in the tree; past the last place for a thread outside it. */
  function PlaceFrom(t: Thread, placed: seq<Placed>, from: nat): (j: nat)
    requires from <= |placed|
    ensures from <= j <= |placed| && (j < |placed| ==> InFolder(t, placed[j].folder))
    ensures forall i :: from <= i < j ==> !InFolder(t, placed[i].folder)
    decreases |placed| - from
  {
    if from == |placed| || InFolder(t, placed[from].folder) then from else PlaceFrom(t, placed, from + 1)
  }

  function PlaceOf(t: Thread, placed: seq<Placed>): nat {
    PlaceFrom(t, placed, 0)
  }

  function FolderOf(t: Thread, placed: seq<Placed>): Option<Folder> {
    if PlaceOf(t, placed) < |placed| then Some(placed[PlaceOf(t, placed)].folder) else None
  }

  /** By place in the tree, then by input position. */
  predicate Earlier(threads: seq<Thread>, placed: seq<Placed>, a: nat, b: nat)
    requires a < |threads| && b < |threads|
  {
    PlaceOf(threads[a], placed) < PlaceOf(threads[b], placed) ||
    (PlaceOf(threads[a], placed) == PlaceOf(threads[b], placed) && a < b)
  }

  /** The sections are those of the threads at these positions. */
  predicate SectionsAt(sections: seq<Section>, order: seq<nat>, threads: seq<Thread>, placed: seq<Placed>,
      content: string -> seq<Row>)
  {
    |sections| == |order| &&
    forall i :: 0 <= i < |order| ==>
      order[i] < |threads| &&
      sections[i] == SectionOf(threads[order[i]], FolderOf(threads[order[i]], placed), content)
  }

  predicate Within(order: seq<nat>, threads: seq<Thread>) {
    forall i :: 0 <= i < |order| ==> order[i] < |threads|
  }

  predicate EarlierFirst(order: seq<nat>, threads: seq<Thread>, placed: seq<Placed>)
    requires Within(order, threads)
  {
    forall i, j :: 0 <= i < j < |order| ==> Earlier(threads, placed, order[i], order[j])
  }

  /** Every thread has its section, in tree order and then in input order. */
  ghost predicate LaidOut(sections: seq<Section>, threads: seq<Thread>, placed: seq<Placed>,
      content: string -> seq<Row>) {
    exists order :: LaidOutBy(sections, order, threads, placed, content)
  }

  predicate LaidOutBy(sections: seq<Section>, order: seq<nat>, threads: seq<Thread>, placed: seq<Placed>,
      content: string -> seq<Row>)
  {
    SectionsAt(sections, order, threads, placed, content) && Within(order, threads) &&
      EarlierFirst(order, threads, placed) &&
    forall a: nat :: a < |threads| ==> a in order
  }

  lemma PlaceIsUnique(t: Thread, placed: seq<Placed>, j: nat)
    requires NoRepeat(placed) && j < |placed| && InFolder(t, placed[j].folder)
    ensures PlaceOf(t, placed) == j
  {
    var i := PlaceOf(t, placed);
    assert placed[i].folder.id == placed[j].folder.id;
  }

  lemma SectionsAtBoth(xs: seq<Section>, ys: seq<Section>, order: seq<nat>, later: seq<nat>, threads: seq<Thread>,
      placed: seq<Placed>, content: string -> seq<Row>)
    requires SectionsAt(xs, order, threads, placed, content) && SectionsAt(ys, later, threads, placed, content)
    ensures SectionsAt(xs + ys, order + later, threads, placed, content)
  {
  }

  predicate AllEarlier(order: seq<nat>, later: seq<nat>, threads: seq<Thread>, placed: seq<Placed>)
    requires Within(order, threads) && Within(later, threads)
  {
    forall i, j :: 0 <= i < |order| && 0 <= j < |later| ==> Earlier(threads, placed, order[i], later[j])
  }

  lemma EarlierFirstBoth(order: seq<nat>, later: seq<nat>, threads: seq<Thread>, placed: seq<Placed>)
    requires Within(order, threads) && Within(later, threads) && AllEarlier(order, later, threads, placed)
    requires EarlierFirst(order, threads, placed) && EarlierFirst(later, threads, placed)
    ensures Within(order + later, threads) && EarlierFirst(order + later, threads, placed)
  {
    var all := order + later;
    forall i, j | 0 <= i < j < |all| ensures Earlier(threads, placed, all[i], all[j]) {
      if i < |order| && |order| <= j { assert all[i] == order[i] && all[j] == later[j - |order|]; }
    }
  }

  /** The positions from `k` on of the threads at one place of the tree, `|placed|` being outside it. */
  function Picks(threads: seq<Thread>, placed: seq<Placed>, place: nat, k: nat): seq<nat>
    decreases |threads| - k
  {
    if k >= |threads| then []
    else (if PlaceOf(threads[k], placed) == place then [k] else []) + Picks(threads, placed, place, k + 1)
  }

  lemma {:induction false} PicksAre(threads: seq<Thread>, placed: seq<Placed>, place: nat, k: nat)
    ensures forall a: nat :: a in Picks(threads, placed, place, k) <==>
              k <= a < |threads| && PlaceOf(threads[a], placed) == place
    decreases |threads| - k
  {
    if k < |threads| {
      PicksAre(threads, placed, place, k + 1);
      var here: seq<nat> := if PlaceOf(threads[k], placed) == place then [k] else [];
      forall a: nat ensures a in here + Picks(threads, placed, place, k + 1) <==>
                              k <= a < |threads| && PlaceOf(threads[a], placed) == place
      {
        InEitherPart(here, Picks(threads, placed, place, k + 1), a);
      }
    }
  }

  lemma {:induction false} PicksEarlierFirst(threads: seq<Thread>, placed: seq<Placed>, place: nat, k: nat)
    ensures Within(Picks(threads, placed, place, k), threads)
    ensures EarlierFirst(Picks(threads, placed, place, k), threads, placed)
    decreases |threads| - k
  {
    if k < |threads| {
      var rest := Picks(threads, placed, place, k + 1);
      PicksEarlierFirst(threads, placed, place, k + 1);
      PicksAre(threads, placed, place, k + 1);
      if PlaceOf(threads[k], placed) == place {
        forall j | 0 <= j < |rest| ensures Earlier(threads, placed, k, rest[j]) {
          assert rest[j] in rest;
        }
        EarlierFirstBoth([k], rest, threads, placed);
      } else {
        Unit(rest);
      }
    }
  }

  /** One folder's turn of pass 2 takes the threads at its place. */
  lemma {:induction false} PicksOfFolder(threads: seq<Thread>, placed: seq<Placed>, place: nat, k: nat,
      content: string -> seq<Row>)
    requires NoRepeat(placed) && place < |placed| && k <= |threads|
    ensures SectionsAt(ThreadsIn(threads[k..], placed[place].folder, content), Picks(threads, placed, place, k),
              threads, placed, content)
    decreases |threads| - k
  {
    if k < |threads| {
      var t, folder := threads[k], placed[place].folder;
      DropNext(threads, k);
      PicksOfFolder(threads, placed, place, k + 1, content);
      if InFolder(t, folder) { PlaceIsUnique(t, placed, place); }
      SectionsAtBoth(ThreadIn(t, folder, content), ThreadsIn(threads[k + 1..], folder, content),
        if PlaceOf(t, placed) == place then [k] else [],
        Picks(threads, placed, place, k + 1), threads, placed, content);
    }
  }

  /** The last loop takes the threads outside the tree. */
  lemma {:induction false} PicksOutside(threads: seq<Thread>, placed: seq<Placed>, k: nat, content: string -> seq<Row>)
    requires DistinctThreads(threads) && k <= |threads|
    ensures SectionsAt(ThreadsOutside(threads[k..], threads, placed, content), Picks(threads, placed, |placed|, k),
              threads, placed, content)
    decreases |threads| - k
  {
    if k < |threads| {
      var t := threads[k];
      DropNext(threads, k);
      PicksOutside(threads, placed, k + 1, content);
      EmittedIsInTree(threads, placed, k);
      InTreeHasPlace(t, placed);
      SectionsAtBoth(ThreadOutside(t, Emitted(threads, placed, t.threadId), content),
        ThreadsOutside(threads[k + 1..], threads, placed, content),
        if PlaceOf(t, placed) == |placed| then [k] else [],
        Picks(threads, placed, |placed|, k + 1), threads, placed, content);
    }
  }

  lemma InTreeHasPlace(t: Thread, placed: seq<Placed>)
    ensures InTree(t, placed) <==> PlaceOf(t, placed) < |placed|
  {
    var j := PlaceOf(t, placed);
    if j < |placed| { assert t.folderNid == Some(placed[j].folder.id); }
  }

  /** Place after place, and the outside last. */
  function PicksFrom(threads: seq<Thread>, placed: seq<Placed>, place: nat): seq<nat>
    decreases |placed| + 1 - place
  {
    if place > |placed| then [] else Picks(threads, placed, place, 0) + PicksFrom(threads, placed, place + 1)
  }

  lemma {:induction false} PicksFromAre(threads: seq<Thread>, placed: seq<Placed>, place: nat)
    ensures forall a: nat :: a in PicksFrom(threads, placed, place) <==>
              a < |threads| && place <= PlaceOf(threads[a], placed)
    decreases |placed| + 1 - place
  {
    if place <= |placed| {
      PicksFromAre(threads, placed, place + 1);
      PicksAre(threads, placed, place, 0);
      forall a: nat ensures a in PicksFrom(threads, placed, place) <==>
                              a < |threads| && place <= PlaceOf(threads[a], placed)
      {
        InEitherPart(Picks(threads, placed, place, 0), PicksFrom(threads, placed, place + 1), a);
      }
    }
  }

  lemma {:induction false} PicksFromEarlierFirst(threads: seq<Thread>, placed: seq<Placed>, place: nat)
    ensures Within(PicksFrom(threads, placed, place), threads)
    ensures EarlierFirst(PicksFrom(threads, placed, place), threads, placed)
    decreases |placed| + 1 - place
  {
    if place <= |placed| {
      var here, later := Picks(threads, placed, place, 0), PicksFrom(threads, placed, place + 1);
      PicksFromEarlierFirst(threads, placed, place + 1);
      PicksEarlierFirst(threads, placed, place, 0);
      PicksAre(threads, placed, place, 0);
      PicksFromAre(threads, placed, place + 1);
      forall i, j | 0 <= i < |here| && 0 <= j < |later| ensures Earlier(threads, placed, here[i], later[j]) {
        assert here[i] in here && later[j] in later;
      }
      EarlierFirstBoth(here, later, threads, placed);
    }
  }

  lemma {:induction false} SectionsFromPlace(threads: seq<Thread>, placed: seq<Placed>, place: nat,
      content: string -> seq<Row>)
    requires NoRepeat(placed) && DistinctThreads(threads) && place <= |placed|
    ensures SectionsAt(ThreadsByFolder(threads, placed[place..], content) +
              ThreadsOutside(threads, threads, placed, content),
              PicksFrom(threads, placed, place), threads, placed, content)
    decreases |placed| - place
  {
    var outside := ThreadsOutside(threads, threads, placed, content);
    Whole(threads);
    if place == |placed| {
      PicksOutside(threads, placed, 0, content);
      Unit(outside);
      Unit(Picks(threads, placed, place, 0));
    } else {
      var here, rest := ThreadsIn(threads, placed[place].folder, content),
        ThreadsByFolder(threads, placed[place + 1..], content);
      DropNext(placed, place);
      PicksOfFolder(threads, placed, place, 0, content);
      SectionsFromPlace(threads, placed, place + 1, content);
      SectionsAtBoth(here, rest + outside, Picks(threads, placed, place, 0), PicksFrom(threads, placed, place + 1),
        threads, placed, content);
      Associative(here, rest, outside);
    }
  }

  /**
   * Thread sections come by the place of their folder in the tree, in input order within a folder,
   * and those of threads outside the tree come last; each holds all messages of its thread.
   */
  lemma ThreadsInTreeOrder(threads: seq<Thread>, placed: seq<Placed>, content: string -> seq<Row>)
    requires NoRepeat(placed) && DistinctThreads(threads)
    ensures LaidOut(ThreadSections(threads, placed, content), threads, placed, content)
  {
    var order := PicksFrom(threads, placed, 0);
    Whole(placed);
    SectionsFromPlace(threads, placed, 0, content);
    PicksFromAre(threads, placed, 0);
    PicksFromEarlierFirst(threads, placed, 0);
    assert LaidOutBy(ThreadSections(threads, placed, content), order, threads, placed, content);
  }

  // ----- the gather as the source runs it -----

  function Lookup(m: map<string, seq<Msg>>, key: string): seq<Msg> {
    if key in m then m[key] else []
  }

  /** `byFolder` holds the messages of `rows`, each list in feed order. */
  ghost predicate FiledAs(byFolder: map<string, seq<Msg>>, rows: seq<Row>, threads: seq<Thread>, rootId: string) {
    forall key :: Lookup(byFolder, key) == Filed(rows, threads, rootId, key)
  }

  method FileRow(byFolder: map<string, seq<Msg>>, ghost before: seq<Row>, row: Row, threads: seq<Thread>,
      rootId: string)
    returns (filed: map<string, seq<Msg>>)
    requires FiledAs(byFolder, before, threads, rootId)
    ensures FiledAs(filed, before + [row], threads, rootId)
  {
    LastOf(before, row);
    filed := byFolder;
    if !Retained(threads, row) { return; }
    var key := KeyOf(row, rootId);
    if key !in filed { filed := filed[key := []]; }
    filed := filed[key := filed[key] + [MsgOf(threads, row)]];
  }

  method FilePage(byFolder: map<string, seq<Msg>>, ghost before: seq<Row>, rows: seq<Row>, threads: seq<Thread>,
      rootId: string)
    returns (filed: map<string, seq<Msg>>)
    requires FiledAs(byFolder, before, threads, rootId)
    ensures FiledAs(filed, before + rows, threads, rootId)
  {
    filed := byFolder;
    assert before + rows[..0] == before;
    for i := 0 to |rows|
      invariant FiledAs(filed, before + rows[..i], threads, rootId)
    {
      assert before + rows[..i + 1] == (before + rows[..i]) + [rows[i]];
      filed := FileRow(filed, before + rows[..i], rows[i], threads, rootId);
    }
    Whole(rows);
  }

  /** What has been read before a page. */
  function ReadBefore(all: seq<Row>, page: nat): seq<Row>
    requires page >= 1
  {
    all[..Min((page - 1) * PAGE_SIZE, |all|)]
  }

  /** A page extends what was read; an empty or short one ends the feed. */
  lemma PageExtends(feed: nat -> seq<Row>, all: seq<Row>, page: nat)
    requires page >= 1 && Paged(feed, all)
    ensures |feed(page)| < PAGE_SIZE ==> ReadBefore(all, page) + feed(page) == all
    ensures |feed(page)| >= PAGE_SIZE ==>
              ReadBefore(all, page) + feed(page) == ReadBefore(all, page + 1) && page * PAGE_SIZE <= |all|
  {
  }

  /** The folder loop: all pages of the feed, each row filed under its folder. */
  method FileRows(feed: nat -> seq<Row>, ghost all: seq<Row>, threads: seq<Thread>, rootId: string)
    returns (byFolder: map<string, seq<Msg>>)
    requires Paged(feed, all)
    ensures FiledAs(byFolder, all, threads, rootId)
  {
    byFolder := map[];
    ghost var done: seq<Row> := [];
    var page := 1;
    while true
      invariant page >= 1 && done == ReadBefore(all, page)
      invariant FiledAs(byFolder, done, threads, rootId)
      decreases |all| - (page - 1) * PAGE_SIZE
    {
      var rows := feed(page);
      PageExtends(feed, all, page);
      if |rows| == 0 {
        assert done + rows == done;
        break;
      }
      byFolder := FilePage(byFolder, done, rows, threads, rootId);
      done := done + rows;
      if |rows| < PAGE_SIZE { break; }
      page := page + 1;
    }
  }

  /** The thread loop: all pages of one thread. */
  method ReadThread(t: Thread, folder: Option<Folder>, feed: nat -> seq<Row>, content: string -> seq<Row>)
    returns (section: Section)
    requires Paged(feed, content(t.threadId))
    ensures section == SectionOf(t, folder, content)
  {
    ghost var all := content(t.threadId);
    ghost var done: seq<Row> := [];
    var messages: seq<Msg> := [];
    var page := 1;
    while true
      invariant page >= 1 && done == ReadBefore(all, page)
      invariant messages == Plain(done)
      decreases |all| - (page - 1) * PAGE_SIZE
    {
      var rows := feed(page);
      PageExtends(feed, all, page);
      if |rows| == 0 {
        assert done + rows == done;
        break;
      }
      messages := messages + Plain(rows);
      assert messages == Plain(done + rows);
      done := done + rows;
      if |rows| < PAGE_SIZE { break; }
      page := page + 1;
    }
    assert messages == Plain(all);
    section := FileThread(t.threadId,
      if t.folderNid.Some? then t.folderNid else if folder.Some? then Some(folder.value.id) else None, messages);
  }

  /** What a thread's own pages hold. */
  ghost predicate ThreadsPaged(threads: seq<Thread>, threadFeed: string -> nat -> seq<Row>,
      content: string -> seq<Row>) {
    forall t <- threads :: Paged(threadFeed(t.threadId), content(t.threadId))
  }

  lemma {:induction false} SelectedAmong(threads: seq<Thread>, sel: Selection)
    ensures forall t <- SelectedThreads(threads, sel) :: t in threads && Selects(sel, t.threadId)
    ensures DistinctThreads(threads) ==> DistinctThreads(SelectedThreads(threads, sel))
    decreases threads
  {
    if threads != [] {
      SelectedAmong(threads[1..], sel);
      var rest := SelectedThreads(threads[1..], sel);
      if DistinctThreads(threads) {
        assert forall i :: 0 <= i < |threads| - 1 ==> threads[1..][i] == threads[i + 1];
        forall i | 0 <= i < |rest| ensures rest[i].threadId != threads[0].threadId {
          assert rest[i] in threads[1..];
          var j :| 0 <= j < |threads| - 1 && threads[1..][j] == rest[i];
        }
      }
    }
  }

  lemma NextFolder(placed: seq<Placed>, i: nat, sel: Selection, rows: seq<Row>, threads: seq<Thread>, rootId: string,
      sofar: seq<Section>)
    requires i < |placed|
    ensures sofar + FolderSections(placed[i..], sel, rows, threads, rootId)
         == (sofar + FolderSection(placed[i], sel, Filed(rows, threads, rootId, placed[i].folder.id))) +
            FolderSections(placed[i + 1..], sel, rows, threads, rootId)
  {
    DropNext(placed, i);
  }

  /** Pass 1: the selected folders that have messages. */
  method EmitFolders(placed: seq<Placed>, sel: Selection, byFolder: map<string, seq<Msg>>,
      ghost rows: seq<Row>, ghost threads: seq<Thread>, ghost rootId: string) returns (sections: seq<Section>)
    requires FiledAs(byFolder, rows, threads, rootId)
    ensures sections == FolderSections(placed, sel, rows, threads, rootId)
  {
    sections := [];
    var i := 0;
    while i < |placed|
      invariant 0 <= i <= |placed|
      invariant FolderSections(placed, sel, rows, threads, rootId)
             == sections + FolderSections(placed[i..], sel, rows, threads, rootId)
    {
      NextFolder(placed, i, sel, rows, threads, rootId, sections);
      var p := placed[i];
      var messages := Lookup(byFolder, p.folder.id);
      sections := sections + FolderSection(p, sel, messages);
      i := i + 1;
    }
  }

  lemma NextThreadIn(threads: seq<Thread>, j: nat, folder: Folder, content: string -> seq<Row>, sofar: seq<Section>)
    requires j < |threads|
    ensures sofar + ThreadsIn(threads[j..], folder, content)
         == (sofar + ThreadIn(threads[j], folder, content)) + ThreadsIn(threads[j + 1..], folder, content)
  {
    DropNext(threads, j);
  }

  /** One folder's turn of pass 2. */
  method EmitThreadsOf(folder: Folder, selected: seq<Thread>, threadFeed: string -> nat -> seq<Row>,
      content: string -> seq<Row>)
    returns (sections: seq<Section>)
    requires ThreadsPaged(selected, threadFeed, content)
    ensures sections == ThreadsIn(selected, folder, content)
  {
    sections := [];
    var j := 0;
    while j < |selected|
      invariant 0 <= j <= |selected|
      invariant ThreadsIn(selected, folder, content) == sections + ThreadsIn(selected[j..], folder, content)
    {
      NextThreadIn(selected, j, folder, content, sections);
      var t := selected[j];
      if t.folderNid == Some(folder.id) {
        var section := ReadThread(t, Some(folder), threadFeed(t.threadId), content);
        sections := sections + [section];
      } else {
        Unit(sections);
      }
      j := j + 1;
    }
  }

  /** The threads emitted once the `i`-th folder has had its turn. */
  method EmittedNext(selected: seq<Thread>, placed: seq<Placed>, i: nat, before: set<string>)
      returns (emitted: set<string>)
    requires i < |placed| && forall id :: id in before <==> Emitted(selected, placed[..i], id)
    ensures forall id :: id in emitted <==> Emitted(selected, placed[..i + 1], id)
  {
    var folderId := placed[i].folder.id;
    emitted := before + set t | t in selected && t.folderNid == Some(folderId) :: t.threadId;
    forall id ensures id in emitted <==> Emitted(selected, placed[..i + 1], id) {
      EmittedOneMore(selected, placed, i, id);
      if EmittedHere(selected, folderId, id) {
        var k :| 0 <= k < |selected| && selected[k].threadId == id && selected[k].folderNid == Some(folderId);
        assert selected[k] in selected;
      }
    }
  }

  predicate EmittedHere(selected: seq<Thread>, folderId: string, id: string) {
    exists k :: 0 <= k < |selected| && selected[k].threadId == id && selected[k].folderNid == Some(folderId)
  }

  /** Pass 2, first loop: threads grouped by their folder's place in the tree. */
  method EmitThreads(placed: seq<Placed>, selected: seq<Thread>, threadFeed: string -> nat -> seq<Row>,
      content: string -> seq<Row>)
    returns (sections: seq<Section>, emitted: set<string>)
    requires ThreadsPaged(selected, threadFeed, content)
    ensures sections == ThreadsByFolder(selected, placed, content)
    ensures forall id :: id in emitted <==> Emitted(selected, placed, id)
  {
    sections, emitted := [], {};
    for i := 0 to |placed|
      invariant ThreadsByFolder(selected, placed, content) == sections + ThreadsByFolder(selected, placed[i..], content)
      invariant forall id :: id in emitted <==> Emitted(selected, placed[..i], id)
    {
      NextFolderThreads(selected, placed, i, content, sections);
      var folder := placed[i].folder;
      var here := EmitThreadsOf(folder, selected, threadFeed, content);
      sections := sections + here;
      emitted := EmittedNext(selected, placed, i, emitted);
    }
    Whole(placed);
  }

  lemma NextFolderThreads(selected: seq<Thread>, placed: seq<Placed>, i: nat, content: string -> seq<Row>,
      sofar: seq<Section>)
    requires i < |placed|
    ensures sofar + ThreadsByFolder(selected, placed[i..], content)
         == (sofar + ThreadsIn(selected, placed[i].folder, content))
           + ThreadsByFolder(selected, placed[i + 1..], content)
  {
    DropNext(placed, i);
  }

  lemma EmittedOneMore(selected: seq<Thread>, placed: seq<Placed>, i: nat, id: string)
    requires i < |placed|
    ensures Emitted(selected, placed[..i + 1], id) <==>
              Emitted(selected, placed[..i], id) ||
              EmittedHere(selected, placed[i].folder.id, id)
  {
    var less, more := placed[..i], placed[..i + 1];
    if Emitted(selected, more, id) {
      var k, j :| 0 <= k < |selected| && 0 <= j < |more| &&
                  selected[k].threadId == id && selected[k].folderNid == Some(more[j].folder.id);
      if j < i { assert less[j] == more[j]; }
    }
    if Emitted(selected, less, id) {
      var k, j :| 0 <= k < |selected| && 0 <= j < |less| &&
                  selected[k].threadId == id && selected[k].folderNid == Some(less[j].folder.id);
      assert more[j] == less[j];
    }
    if EmittedHere(selected, placed[i].folder.id, id) {
      assert more[i] == placed[i];
    }
  }

  lemma NextThreadOutside(threads: seq<Thread>, j: nat, placed: seq<Placed>, content: string -> seq<Row>,
      sofar: seq<Section>)
    requires j < |threads|
    ensures sofar + ThreadsOutside(threads[j..], threads, placed, content)
         == (sofar + ThreadOutside(threads[j], Emitted(threads, placed, threads[j].threadId), content)) +
            ThreadsOutside(threads[j + 1..], threads, placed, content)
  {
    DropNext(threads, j);
  }

  /** Pass 2, second loop: selected threads no folder of the tree has emitted. */
  method EmitOthers(selected: seq<Thread>, emitted: set<string>, ghost placed: seq<Placed>,
      threadFeed: string -> nat -> seq<Row>, content: string -> seq<Row>) returns (sections: seq<Section>)
    requires ThreadsPaged(selected, threadFeed, content)
    requires forall id :: id in emitted <==> Emitted(selected, placed, id)
    ensures sections == ThreadsOutside(selected, selected, placed, content)
  {
    sections := [];
    var j := 0;
    while j < |selected|
      invariant 0 <= j <= |selected|
      invariant ThreadsOutside(selected, selected, placed, content)
             == sections + ThreadsOutside(selected[j..], selected, placed, content)
    {
      NextThreadOutside(selected, j, placed, content, sections);
      var t := selected[j];
      if t.threadId !in emitted {
        var section := ReadThread(t, None, threadFeed(t.threadId), content);
        sections := sections + [section];
      } else {
        Unit(sections);
      }
      j := j + 1;
    }
  }

  method GatherSections(feed: nat -> seq<Row>, ghost rows: seq<Row>, threadFeed: string -> nat -> seq<Row>,
      content: string -> seq<Row>, folderSel: Selection, threadSel: Selection, threads: seq<Thread>,
      folderTree: seq<Folder>)
    returns (sections: seq<Section>)
    requires Paged(feed, rows) && ThreadsPaged(threads, threadFeed, content) && Orderable(folderTree)
    ensures sections == Gathered(rows, content, folderSel, threadSel, threads, Ordered(folderTree))
  {
    var selected := SelectedThreads(threads, threadSel);
    SelectedAmong(threads, threadSel);
    var placed := OrderFolderTree(folderTree);
    sections := [];
    if IncludesFolders(folderSel) {
      var byFolder := FileRows(feed, rows, threads, RootId(placed));
      sections := EmitFolders(placed, folderSel, byFolder, rows, threads, RootId(placed));
    }
    var inTree, emitted := EmitThreads(placed, selected, threadFeed, content);
    var others := EmitOthers(selected, emitted, placed, threadFeed, content);
    sections := sections + (inTree + others);
  }

  /**
   * The whole export: its folder sections come first and hold every row whose folder is emitted,
   * once; its thread sections follow and hold every selected thread, once.
   */
  lemma ExportConserves(rows: seq<Row>, content: string -> seq<Row>, folderSel: Selection, threadSel: Selection,
      threads: seq<Thread>, placed: seq<Placed>)
    requires NoRepeat(placed) && DistinctThreads(threads)
    ensures var selected := SelectedThreads(threads, threadSel);
            var chats, threadSections := Chats(rows, folderSel, threads, placed),
              ThreadSections(selected, placed, content);
            Gathered(rows, content, folderSel, threadSel, threads, placed) == chats + threadSections &&
            (forall i :: 0 <= i < |chats| ==> chats[i].FolderChat?) && AllThreads(threadSections) &&
            (IncludesFolders(folderSel) ==>
               multiset(Messages(chats)) == multiset(Kept(rows, threads, RootId(placed), placed, folderSel))) &&
            multiset(SectionIds(threadSections)) == multiset(ThreadIds(selected)) &&
            LaidOut(threadSections, selected, placed, content)
  {
    SelectedAmong(threads, threadSel);
    ThreadsInTreeOrder(SelectedThreads(threads, threadSel), placed, content);
    ChatsConserved(rows, folderSel, threads, placed);
    ThreadsConserved(SelectedThreads(threads, threadSel), placed, content);
  }

  /** The tree an export is laid out by never repeats a folder. */
  lemma OrderedNeverRepeats(folderTree: seq<Folder>)
    requires Orderable(folderTree) && FolderTree.DistinctIds(folderTree)
    ensures NoRepeat(Ordered(folderTree))
  {
    if Root(folderTree).Some? {
      SubtreeNoRepeat(folderTree, Root(folderTree).value, "");
    }
  }

  lemma ChatsConserved(rows: seq<Row>, sel: Selection, threads: seq<Thread>, placed: seq<Placed>)
    requires NoRepeat(placed)
    ensures var chats := Chats(rows, sel, threads, placed);
            (forall i :: 0 <= i < |chats| ==> chats[i].FolderChat?) &&
            (IncludesFolders(sel) ==>
               multiset(Messages(chats)) == multiset(Kept(rows, threads, RootId(placed), placed, sel)))
  {
    var chats := Chats(rows, sel, threads, placed);
    FolderMessagesConserved(placed, sel, rows, threads, RootId(placed));
    forall i | 0 <= i < |chats| ensures chats[i].FolderChat? {
      FolderSectionsAre(placed, sel, rows, threads, RootId(placed), i);
    }
  }
}
