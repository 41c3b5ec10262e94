/** What the sections of an export show, said of the feed's rows and the threads themselves. */
module ChatSections {
  import opened Options
  import opened FolderTree
  import opened ChatExport
  import opened Sequences

  // ----- one row and its message -----

  /** The row belongs to this folder: by its scope, or to the root when it has none. */
  predicate Belongs(row: Row, nid: string, rootId: string) {
    (row.scope != "" && row.scope == nid) || (row.scope == "" && nid == rootId)
  }

  /** The last thread given for the file, at position `i`. */
  predicate LastFor(threads: seq<Thread>, fileNid: string, i: int) {
    0 <= i < |threads| && threads[i].fileNid == fileNid &&
    forall j :: i < j < |threads| ==> threads[j].fileNid != fileNid
  }

  /** Only the card of a file that has no thread is dropped. */
  predicate Stays(row: Row, threads: seq<Thread>) {
    !row.threadCard || exists i :: 0 <= i < |threads| && threads[i].fileNid == row.fileNid
  }

  /** The event of a thread's card names the thread's file. */
  predicate Announces(event: Option<string>, t: Thread) {
    event == Some("Chat thread started for \"" + (if t.filename == "" then "a file" else t.filename) + "\"")
  }

  /** A message keeps its row's id; the card of a thread becomes an event, and nothing else does. */
  predicate ShowsRow(m: Msg, row: Row, threads: seq<Thread>) {
    m.id == row.id && (!row.threadCard ==> m.event == None) &&
    (row.threadCard ==>
       exists i :: 0 <= i < |threads| && LastFor(threads, row.fileNid, i) && Announces(m.event, threads[i]))
  }

  lemma {:induction false} ThreadIsLast(threads: seq<Thread>, fileNid: string)
    ensures ThreadOfFile(threads, fileNid).Some? <==> exists i :: 0 <= i < |threads| && threads[i].fileNid == fileNid
    ensures ThreadOfFile(threads, fileNid).Some? ==>
              exists i :: LastFor(threads, fileNid, i) && threads[i] == ThreadOfFile(threads, fileNid).value
    decreases threads
  {
    if threads != [] {
      var before, last := threads[..|threads| - 1], threads[|threads| - 1];
      assert forall j :: 0 <= j < |before| ==> threads[j] == before[j];
      if last.fileNid == fileNid {
        assert LastFor(threads, fileNid, |before|);
      } else {
        ThreadIsLast(before, fileNid);
        if ThreadOfFile(before, fileNid).Some? {
          var i :| LastFor(before, fileNid, i) && before[i] == ThreadOfFile(before, fileNid).value;
          assert LastFor(threads, fileNid, i);
        }
      }
    }
  }

  lemma RowIsShown(row: Row, threads: seq<Thread>)
    ensures Retained(threads, row) <==> Stays(row, threads)
    ensures Retained(threads, row) ==> ShowsRow(MsgOf(threads, row), row, threads)
  {
    ThreadIsLast(threads, row.fileNid);
  }

  // ----- a folder's section -----

  predicate Ascending(at: seq<nat>) {
    forall a, b :: 0 <= a < b < |at| ==> at[a] < at[b]
  }

  /** The messages are those of the rows at these positions. */
  predicate ShownAt(messages: seq<Msg>, at: seq<nat>, rows: seq<Row>, threads: seq<Thread>) {
    |at| == |messages| &&
    forall m :: 0 <= m < |at| ==> at[m] < |rows| && ShowsRow(messages[m], rows[at[m]], threads)
  }

  /** The positions are exactly those of the folder's rows, in feed order. */
  ghost predicate RowsOf(at: seq<nat>, rows: seq<Row>, threads: seq<Thread>, nid: string, rootId: string) {
    Ascending(at) &&
    forall i: nat :: i in at <==> i < |rows| && Belongs(rows[i], nid, rootId) && Stays(rows[i], threads)
  }

  /** The messages show, in feed order, exactly the folder's rows that stay. */
  ghost predicate HoldsRows(messages: seq<Msg>, rows: seq<Row>, threads: seq<Thread>, nid: string, rootId: string) {
    exists at: seq<nat> :: ShownAt(messages, at, rows, threads) && RowsOf(at, rows, threads, nid, rootId)
  }

  lemma ShownEarlier(messages: seq<Msg>, at: seq<nat>, rows: seq<Row>, row: Row, threads: seq<Thread>, nid: string,
      rootId: string)
    requires ShownAt(messages, at, rows, threads) && RowsOf(at, rows, threads, nid, rootId)
    requires !(Belongs(row, nid, rootId) && Stays(row, threads))
    ensures HoldsRows(messages, rows + [row], threads, nid, rootId)
  {
    var more := rows + [row];
    assert more[|rows|] == row && forall i :: 0 <= i < |rows| ==> more[i] == rows[i];
    assert ShownAt(messages, at, more, threads) && RowsOf(at, more, threads, nid, rootId);
  }

  lemma ShownNext(messages: seq<Msg>, at: seq<nat>, rows: seq<Row>, row: Row, m: Msg, threads: seq<Thread>, nid: string,
      rootId: string)
    requires ShownAt(messages, at, rows, threads) && RowsOf(at, rows, threads, nid, rootId)
    requires Belongs(row, nid, rootId) && Stays(row, threads) && ShowsRow(m, row, threads)
    ensures HoldsRows(messages + [m], rows + [row], threads, nid, rootId)
  {
    var more, next := rows + [row], at + [|rows|];
    assert more[|rows|] == row && forall i :: 0 <= i < |rows| ==> more[i] == rows[i];
    assert forall i :: i in next <==> i in at || i == |rows|;
    forall a, b | 0 <= a < b < |next| ensures next[a] < next[b] {
      if b == |at| { assert at[a] in at; }
    }
    assert ShownAt(messages + [m], next, more, threads);
    assert RowsOf(next, more, threads, nid, rootId);
  }

  /** One more row of the feed. */
  lemma HoldsOneMore(messages: seq<Msg>, rows: seq<Row>, row: Row, threads: seq<Thread>, nid: string, rootId: string)
    requires HoldsRows(messages, rows, threads, nid, rootId)
    ensures Retained(threads, row) && Belongs(row, nid, rootId) ==>
              HoldsRows(messages + [MsgOf(threads, row)], rows + [row], threads, nid, rootId)
    ensures !(Retained(threads, row) && Belongs(row, nid, rootId)) ==>
              HoldsRows(messages, rows + [row], threads, nid, rootId)
  {
    var at: seq<nat> :| ShownAt(messages, at, rows, threads) && RowsOf(at, rows, threads, nid, rootId);
    RowIsShown(row, threads);
    if Retained(threads, row) && Belongs(row, nid, rootId) {
      ShownNext(messages, at, rows, row, MsgOf(threads, row), threads, nid, rootId);
    } else {
      ShownEarlier(messages, at, rows, row, threads, nid, rootId);
    }
  }

  lemma FiledOneMore(rows: seq<Row>, row: Row, threads: seq<Thread>, rootId: string, nid: string)
    ensures Filed(rows + [row], threads, rootId, nid)
         == if Retained(threads, row) && Belongs(row, nid, rootId)
            then Filed(rows, threads, rootId, nid) + [MsgOf(threads, row)] else Filed(rows, threads, rootId, nid)
  {
    LastOf(rows, row);
    Unit(Filed(rows, threads, rootId, nid));
  }

  lemma {:induction false} FiledHolds(rows: seq<Row>, threads: seq<Thread>, rootId: string, nid: string)
    ensures HoldsRows(Filed(rows, threads, rootId, nid), rows, threads, nid, rootId)
    decreases rows
  {
    if rows == [] {
      assert ShownAt([], [], rows, threads) && RowsOf([], rows, threads, nid, rootId);
    } else {
      var before, last := rows[..|rows| - 1], rows[|rows| - 1];
      FiledHolds(before, threads, rootId, nid);
      HoldsOneMore(Filed(before, threads, rootId, nid), before, last, threads, nid, rootId);
      FiledOneMore(before, last, threads, rootId, nid);
      InitLast(rows);
    }
  }

  /** Some row of the folder stays exactly when messages are filed under it. */
  lemma FiledNotEmpty(rows: seq<Row>, threads: seq<Thread>, rootId: string, nid: string, i: nat)
    requires i < |rows| && Belongs(rows[i], nid, rootId) && Stays(rows[i], threads)
    ensures Filed(rows, threads, rootId, nid) != []
  {
    FiledHolds(rows, threads, rootId, nid);
    var at: seq<nat> :| ShownAt(Filed(rows, threads, rootId, nid), at, rows, threads) &&
                        RowsOf(at, rows, threads, nid, rootId);
    assert i in at;
  }

  // ----- what is selected -----

  predicate Wanted(sel: Selection, id: string) {
    sel == All || (sel.Only? && id in sel.ids)
  }

  // ----- the folder sections of an export -----

  /** A section is that of a wanted folder of the tree, under its name and path, with the folder's rows. */
  ghost predicate ShowsFolder(s: Section, p: Placed, rows: seq<Row>, threads: seq<Thread>, sel: Selection,
      rootId: string) {
    s.FolderChat? && s.nid == p.folder.id && s.name == p.folder.name && s.path == p.path &&
    Wanted(sel, p.folder.id) && s.messages != [] && HoldsRows(s.messages, rows, threads, s.nid, rootId)
  }

  ghost predicate FromFolder(s: Section, placed: seq<Placed>, rows: seq<Row>, threads: seq<Thread>, sel: Selection,
      rootId: string) {
    exists i :: 0 <= i < |placed| && ShowsFolder(s, placed[i], rows, threads, sel, rootId)
  }

  /** A row shows the folder has something to export. */
  predicate HasRows(p: Placed, rows: seq<Row>, threads: seq<Thread>, rootId: string) {
    exists i :: 0 <= i < |rows| && Belongs(rows[i], p.folder.id, rootId) && Stays(rows[i], threads)
  }

  ghost predicate HasSection(sections: seq<Section>, p: Placed, rows: seq<Row>, threads: seq<Thread>, sel: Selection,
      rootId: string) {
    exists k :: 0 <= k < |sections| && ShowsFolder(sections[k], p, rows, threads, sel, rootId)
  }

  lemma FolderSectionShows(p: Placed, sel: Selection, messages: seq<Msg>, rows: seq<Row>, threads: seq<Thread>,
      rootId: string)
    requires HoldsRows(messages, rows, threads, p.folder.id, rootId)
    ensures var here := FolderSection(p, sel, messages);
            |here| <= 1 && (here != [] ==> ShowsFolder(here[0], p, rows, threads, sel, rootId)) &&
            (Wanted(sel, p.folder.id) && messages != [] ==> here != [])
  {
  }

  lemma FolderHasMessages(p: Placed, rows: seq<Row>, threads: seq<Thread>, rootId: string)
    requires HasRows(p, rows, threads, rootId)
    ensures Filed(rows, threads, rootId, p.folder.id) != []
  {
    var i :| 0 <= i < |rows| && Belongs(rows[i], p.folder.id, rootId) && Stays(rows[i], threads);
    FiledNotEmpty(rows, threads, rootId, p.folder.id, i);
  }

  ghost predicate AllFromFolders(s: seq<Section>, placed: seq<Placed>, rows: seq<Row>, threads: seq<Thread>,
      sel: Selection, rootId: string) {
    forall k :: 0 <= k < |s| ==> FromFolder(s[k], placed, rows, threads, sel, rootId)
  }

  /** Every wanted folder with rows has its section. */
  ghost predicate FoldersShown(s: seq<Section>, placed: seq<Placed>, rows: seq<Row>, threads: seq<Thread>,
      sel: Selection, rootId: string) {
    forall i :: 0 <= i < |placed| && Wanted(sel, placed[i].folder.id) && HasRows(placed[i], rows, threads, rootId) ==>
      HasSection(s, placed[i], rows, threads, sel, rootId)
  }

  lemma {:induction false} FolderSectionsShow(placed: seq<Placed>, sel: Selection, rows: seq<Row>, threads: seq<Thread>,
      rootId: string)
    ensures AllFromFolders(FolderSections(placed, sel, rows, threads, rootId), placed, rows, threads, sel, rootId)
    ensures FoldersShown(FolderSections(placed, sel, rows, threads, rootId), placed, rows, threads, sel, rootId)
    decreases placed
  {
    if placed != [] {
      var messages := Filed(rows, threads, rootId, placed[0].folder.id);
      FiledHolds(rows, threads, rootId, placed[0].folder.id);
      if HasRows(placed[0], rows, threads, rootId) { FolderHasMessages(placed[0], rows, threads, rootId); }
      FolderSectionShows(placed[0], sel, messages, rows, threads, rootId);
      FolderSectionsShow(placed[1..], sel, rows, threads, rootId);
      AllFromMore(FolderSection(placed[0], sel, messages), FolderSections(placed[1..], sel, rows, threads, rootId),
        placed, rows, threads, sel, rootId);
      FoldersShownMore(FolderSection(placed[0], sel, messages), FolderSections(placed[1..], sel, rows, threads, rootId),
        placed, rows, threads, sel, rootId);
    }
  }

  lemma AllFromMore(here: seq<Section>, rest: seq<Section>, placed: seq<Placed>, rows: seq<Row>,
      threads: seq<Thread>, sel: Selection, rootId: string)
    requires placed != [] && |here| <= 1 && AllFromFolders(rest, placed[1..], rows, threads, sel, rootId)
    requires here != [] ==> ShowsFolder(here[0], placed[0], rows, threads, sel, rootId)
    ensures AllFromFolders(here + rest, placed, rows, threads, sel, rootId)
  {
    forall k | 0 <= k < |here + rest| ensures FromFolder((here + rest)[k], placed, rows, threads, sel, rootId) {
      OneComesFrom(here, rest, k, placed, rows, threads, sel, rootId);
    }
  }

  lemma FoldersShownMore(here: seq<Section>, rest: seq<Section>, placed: seq<Placed>, rows: seq<Row>,
      threads: seq<Thread>, sel: Selection, rootId: string)
    requires placed != [] && FoldersShown(rest, placed[1..], rows, threads, sel, rootId)
    requires Wanted(sel, placed[0].folder.id) && HasRows(placed[0], rows, threads, rootId) ==>
               here != [] && ShowsFolder(here[0], placed[0], rows, threads, sel, rootId)
    ensures FoldersShown(here + rest, placed, rows, threads, sel, rootId)
  {
    forall i | 0 <= i < |placed| && Wanted(sel, placed[i].folder.id) && HasRows(placed[i], rows, threads, rootId)
      ensures HasSection(here + rest, placed[i], rows, threads, sel, rootId)
    {
      if i > 0 { assert placed[1..][i - 1] == placed[i]; }
      OneHasSection(here, rest, i, placed, rows, threads, sel, rootId);
    }
  }

  lemma OneComesFrom(here: seq<Section>, rest: seq<Section>, k: nat, placed: seq<Placed>, rows: seq<Row>,
      threads: seq<Thread>, sel: Selection, rootId: string)
    requires placed != [] && |here| <= 1 && k < |here + rest|
    requires here != [] ==> ShowsFolder(here[0], placed[0], rows, threads, sel, rootId)
    requires k >= |here| ==> FromFolder(rest[k - |here|], placed[1..], rows, threads, sel, rootId)
    ensures FromFolder((here + rest)[k], placed, rows, threads, sel, rootId)
  {
    if k >= |here| {
      var s := rest[k - |here|];
      var i :| 0 <= i < |placed[1..]| && ShowsFolder(s, placed[1..][i], rows, threads, sel, rootId);
      assert placed[1..][i] == placed[i + 1];
    }
  }

  lemma OneHasSection(here: seq<Section>, rest: seq<Section>, i: nat, placed: seq<Placed>, rows: seq<Row>,
      threads: seq<Thread>, sel: Selection, rootId: string)
    requires i < |placed|
    requires i == 0 ==> here != [] && ShowsFolder(here[0], placed[0], rows, threads, sel, rootId)
    requires i > 0 ==> HasSection(rest, placed[1..][i - 1], rows, threads, sel, rootId)
    ensures HasSection(here + rest, placed[i], rows, threads, sel, rootId)
  {
    if i == 0 {
      assert (here + rest)[0] == here[0];
    } else {
      var k :| 0 <= k < |rest| && ShowsFolder(rest[k], placed[1..][i - 1], rows, threads, sel, rootId);
      assert (here + rest)[|here| + k] == rest[k] && placed[1..][i - 1] == placed[i];
    }
  }

  // ----- the thread sections of an export -----

  /** A thread's section holds all its messages, in order, under its own folder. */
  predicate ShowsThread(s: Section, t: Thread, content: string -> seq<Row>) {
    s.FileThread? && s.threadId == t.threadId && s.folderNid == t.folderNid &&
    |s.messages| == |content(t.threadId)| &&
    forall m :: 0 <= m < |s.messages| ==> s.messages[m].id == content(t.threadId)[m].id && s.messages[m].event == None
  }

  predicate FromThread(s: Section, threads: seq<Thread>, sel: Selection, content: string -> seq<Row>) {
    exists i :: 0 <= i < |threads| && Wanted(sel, threads[i].threadId) && ShowsThread(s, threads[i], content)
  }

  predicate ThreadHasSection(sections: seq<Section>, t: Thread, content: string -> seq<Row>) {
    exists k :: 0 <= k < |sections| && ShowsThread(sections[k], t, content)
  }

  lemma SectionShows(t: Thread, folder: Option<Folder>, content: string -> seq<Row>)
    requires folder.Some? ==> t.folderNid == Some(folder.value.id)
    ensures ShowsThread(SectionOf(t, folder, content), t, content)
  {
  }

  lemma {:induction false} SelectedAreWanted(threads: seq<Thread>, sel: Selection, t: Thread)
    ensures t in SelectedThreads(threads, sel) <==> t in threads && Wanted(sel, t.threadId)
    decreases threads
  {
    if threads != [] { SelectedAreWanted(threads[1..], sel, t); }
  }

  predicate ShowsSome(s: Section, threads: seq<Thread>, content: string -> seq<Row>) {
    exists i :: 0 <= i < |threads| && ShowsThread(s, threads[i], content)
  }

  /** Every section is that of one of the threads. */
  predicate AllFrom(sections: seq<Section>, threads: seq<Thread>, content: string -> seq<Row>) {
    forall k :: 0 <= k < |sections| ==> ShowsSome(sections[k], threads, content)
  }

  lemma {:induction false} InFolderShow(threads: seq<Thread>, folder: Folder, content: string -> seq<Row>)
    ensures AllFrom(ThreadsIn(threads, folder, content), threads, content)
    decreases threads
  {
    if threads != [] {
      InFolderShow(threads[1..], folder, content);
      if threads[0].folderNid == Some(folder.id) { SectionShows(threads[0], Some(folder), content); }
      MoreThreads(ThreadIn(threads[0], folder, content), ThreadsIn(threads[1..], folder, content), threads, content);
    }
  }

  lemma MoreThreads(here: seq<Section>, rest: seq<Section>, threads: seq<Thread>, content: string -> seq<Row>)
    requires threads != [] && |here| <= 1 && (here != [] ==> ShowsThread(here[0], threads[0], content))
    requires AllFrom(rest, threads[1..], content)
    ensures AllFrom(here + rest, threads, content)
  {
    forall k | 0 <= k < |here + rest| ensures ShowsSome((here + rest)[k], threads, content) {
      if k >= |here| {
        var s := rest[k - |here|];
        assert ShowsSome(s, threads[1..], content);
        var i :| 0 <= i < |threads[1..]| && ShowsThread(s, threads[1..][i], content);
        assert threads[1..][i] == threads[i + 1];
      } else {
        assert ShowsThread((here + rest)[k], threads[0], content);
      }
    }
  }

  lemma AllFromBoth(xs: seq<Section>, ys: seq<Section>, threads: seq<Thread>, content: string -> seq<Row>)
    requires AllFrom(xs, threads, content) && AllFrom(ys, threads, content)
    ensures AllFrom(xs + ys, threads, content)
  {
  }

  lemma {:induction false} ByFolderShow(threads: seq<Thread>, placed: seq<Placed>, content: string -> seq<Row>)
    ensures AllFrom(ThreadsByFolder(threads, placed, content), threads, content)
    decreases placed
  {
    if placed != [] {
      InFolderShow(threads, placed[0].folder, content);
      ByFolderShow(threads, placed[1..], content);
      AllFromBoth(ThreadsIn(threads, placed[0].folder, content), ThreadsByFolder(threads, placed[1..], content),
        threads, content);
    }
  }

  lemma {:induction false} OutsideShow(rest: seq<Thread>, threads: seq<Thread>, placed: seq<Placed>,
      content: string -> seq<Row>)
    ensures AllFrom(ThreadsOutside(rest, threads, placed, content), rest, content)
    decreases rest
  {
    if rest != [] {
      OutsideShow(rest[1..], threads, placed, content);
      SectionShows(rest[0], None, content);
      MoreThreads(ThreadOutside(rest[0], Emitted(threads, placed, rest[0].threadId), content),
        ThreadsOutside(rest[1..], threads, placed, content), rest, content);
    }
  }

  /** Every selected thread has a section that shows it. */
  lemma ThreadIsShown(threads: seq<Thread>, placed: seq<Placed>, content: string -> seq<Row>, i: nat)
    requires NoRepeat(placed) && DistinctThreads(threads) && i < |threads|
    ensures ThreadHasSection(ThreadSections(threads, placed, content), threads[i], content)
  {
    var sections := ThreadSections(threads, placed, content);
    ThreadsInTreeOrder(threads, placed, content);
    var order :| LaidOutBy(sections, order, threads, placed, content);
    assert i in order;
    var k :| 0 <= k < |order| && order[k] == i;
    FolderIsOwn(threads[i], placed);
    SectionShows(threads[i], FolderOf(threads[i], placed), content);
  }

  lemma FolderIsOwn(t: Thread, placed: seq<Placed>)
    ensures FolderOf(t, placed).Some? ==> t.folderNid == Some(FolderOf(t, placed).value.id)
  {
  }

  // ----- the whole export -----

  function RootOf(placed: seq<Placed>): string {
    if placed == [] then "" else placed[0].folder.id
  }

  /** Every section shows a wanted folder with its rows, or a wanted thread. */
  ghost predicate AllShown(sections: seq<Section>, rows: seq<Row>, content: string -> seq<Row>, folderSel: Selection,
      threadSel: Selection, threads: seq<Thread>, placed: seq<Placed>) {
    forall k :: 0 <= k < |sections| ==>
      FromFolder(sections[k], placed, rows, threads, folderSel, RootOf(placed)) ||
      FromThread(sections[k], threads, threadSel, content)
  }

  lemma ChatsShow(rows: seq<Row>, sel: Selection, threads: seq<Thread>, placed: seq<Placed>)
    ensures AllFromFolders(Chats(rows, sel, threads, placed), placed, rows, threads, sel, RootOf(placed))
    ensures FoldersShown(Chats(rows, sel, threads, placed), placed, rows, threads, sel, RootOf(placed))
  {
    FolderSectionsShow(placed, sel, rows, threads, RootOf(placed));
  }

  predicate AllFromThreads(s: seq<Section>, threads: seq<Thread>, sel: Selection, content: string -> seq<Row>) {
    forall k :: 0 <= k < |s| ==> FromThread(s[k], threads, sel, content)
  }

  lemma ThreadSectionsShow(threads: seq<Thread>, sel: Selection, placed: seq<Placed>, content: string -> seq<Row>)
    ensures AllFromThreads(ThreadSections(SelectedThreads(threads, sel), placed, content), threads, sel, content)
  {
    var selected := SelectedThreads(threads, sel);
    var s := ThreadSections(selected, placed, content);
    ByFolderShow(selected, placed, content);
    OutsideShow(selected, selected, placed, content);
    AllFromBoth(ThreadsByFolder(selected, placed, content), ThreadsOutside(selected, selected, placed, content),
      selected, content);
    forall k | 0 <= k < |s| ensures FromThread(s[k], threads, sel, content) {
      assert ShowsSome(s[k], selected, content);
      var i :| 0 <= i < |selected| && ShowsThread(s[k], selected[i], content);
      SelectedAreWanted(threads, sel, selected[i]);
      assert selected[i] in threads;
    }
  }

  ghost predicate ThreadsShown(sections: seq<Section>, threads: seq<Thread>, sel: Selection,
      content: string -> seq<Row>) {
    forall i :: 0 <= i < |threads| && Wanted(sel, threads[i].threadId) ==>
      ThreadHasSection(sections, threads[i], content)
  }

  /**
   * The sections an export gathers: each shows a wanted folder, with exactly its rows in feed order, or a
   * wanted thread with all its messages; every wanted folder with rows and every wanted thread has one.
   */
  lemma ExportShows(rows: seq<Row>, content: string -> seq<Row>, folderSel: Selection, threadSel: Selection,
      threads: seq<Thread>, placed: seq<Placed>)
    requires NoRepeat(placed) && DistinctThreads(threads)
    ensures var sections := Gathered(rows, content, folderSel, threadSel, threads, placed);
            AllShown(sections, rows, content, folderSel, threadSel, threads, placed) &&
            FoldersShown(sections, placed, rows, threads, folderSel, RootOf(placed)) &&
            ThreadsShown(sections, threads, threadSel, content)
  {
    var chats := Chats(rows, folderSel, threads, placed);
    var after := ThreadSections(SelectedThreads(threads, threadSel), placed, content);
    ChatsShow(rows, folderSel, threads, placed);
    ThreadSectionsShow(threads, threadSel, placed, content);
    AllShownBoth(chats, after, rows, content, folderSel, threadSel, threads, placed);
    FoldersShownBoth(chats, after, rows, folderSel, threads, placed, RootOf(placed));
    forall i | 0 <= i < |threads| && Wanted(threadSel, threads[i].threadId)
      ensures ThreadHasSection(chats + after, threads[i], content)
    {
      WantedThreadIsShown(threads, threadSel, placed, content, i);
      LaterSection(chats, after, threads[i], content);
    }
  }

  lemma AllShownBoth(chats: seq<Section>, after: seq<Section>, rows: seq<Row>, content: string -> seq<Row>,
      folderSel: Selection, threadSel: Selection, threads: seq<Thread>, placed: seq<Placed>)
    requires AllFromFolders(chats, placed, rows, threads, folderSel, RootOf(placed))
    requires AllFromThreads(after, threads, threadSel, content)
    ensures AllShown(chats + after, rows, content, folderSel, threadSel, threads, placed)
  {
  }

  lemma FoldersShownBoth(chats: seq<Section>, after: seq<Section>, rows: seq<Row>, sel: Selection,
      threads: seq<Thread>, placed: seq<Placed>, rootId: string)
    requires FoldersShown(chats, placed, rows, threads, sel, rootId)
    ensures FoldersShown(chats + after, placed, rows, threads, sel, rootId)
  {
    forall i | 0 <= i < |placed| && Wanted(sel, placed[i].folder.id) && HasRows(placed[i], rows, threads, rootId)
      ensures HasSection(chats + after, placed[i], rows, threads, sel, rootId)
    {
      EarlierSection(chats, after, placed[i], rows, threads, sel, rootId);
    }
  }

  lemma EarlierSection(xs: seq<Section>, ys: seq<Section>, p: Placed, rows: seq<Row>, threads: seq<Thread>,
      sel: Selection, rootId: string)
    requires HasSection(xs, p, rows, threads, sel, rootId)
    ensures HasSection(xs + ys, p, rows, threads, sel, rootId)
  {
    var k :| 0 <= k < |xs| && ShowsFolder(xs[k], p, rows, threads, sel, rootId);
    assert (xs + ys)[k] == xs[k];
  }

  lemma LaterSection(xs: seq<Section>, ys: seq<Section>, t: Thread, content: string -> seq<Row>)
    requires ThreadHasSection(ys, t, content)
    ensures ThreadHasSection(xs + ys, t, content)
  {
    var k :| 0 <= k < |ys| && ShowsThread(ys[k], t, content);
    assert (xs + ys)[|xs| + k] == ys[k];
  }

  lemma WantedThreadIsShown(threads: seq<Thread>, sel: Selection, placed: seq<Placed>, content: string -> seq<Row>,
      i: nat)
    requires NoRepeat(placed) && DistinctThreads(threads) && i < |threads| && Wanted(sel, threads[i].threadId)
    ensures ThreadHasSection(ThreadSections(SelectedThreads(threads, sel), placed, content), threads[i], content)
  {
    var selected := SelectedThreads(threads, sel);
    SelectedAmong(threads, sel);
    SelectedAreWanted(threads, sel, threads[i]);
    var j :| 0 <= j < |selected| && selected[j] == threads[i];
    ThreadIsShown(selected, placed, content, j);
  }
}
