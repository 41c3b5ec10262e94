/** Grants a recipient collects by opening secure shares, and the session each open is bound to. */
module SecureShare {
  import opened Options
  import opened Sequences

  datatype Cap = CanView | CanDownload | CanChat | CanEdit

  /** A permission row; `root` grants do not reach children, `share` marks a secure-share grant. */
  datatype Row = Row(permission: nat, root: bool, share: bool)

  /** Workspace-wide ('*') memberships by user, and rows by node and user. */
  datatype Table = Table(members: map<string, nat>, rows: map<(string, string), Row>)

  /** `listed` is the node a visit lists: the shared folder itself, or the parent of a shared file. */
  datatype Share = Share(node: string, listed: string, caps: set<Cap>, creator: string)

  /** What became of the grants of one open. */
  datatype Fate = Granted | NodeOnly | Refused

  /** One open by a signed-in user. */
  datatype Open = Open(share: Share, fate: Fate)

  datatype Session = Session(uid: string, ceiling: Option<nat>)

  const READ := 3
  const WRITE := 7
  const MODIFY := 15

  // ----- privileges -----

  /** The nearest row above decides; a `root` grant counts nothing for children. */
  function Inherited(t: Table, user: string, above: seq<string>): nat {
    if above == [] then 0
    else if (above[0], user) in t.rows then
      (if t.rows[(above[0], user)].root then 0 else t.rows[(above[0], user)].permission)
    else Inherited(t, user, above[1..])
  }

  /** `user_permission`: a membership wins, then a direct row, then inheritance. */
  function UserPermission(t: Table, user: string, node: string, above: seq<string>): nat {
    if user in t.members then t.members[user]
    else if (node, user) in t.rows then t.rows[(node, user)].permission
    else Inherited(t, user, above)
  }

  function DirectRow(t: Table, user: string, node: string): Option<Row> {
    if (node, user) in t.rows then Some(t.rows[(node, user)]) else None
  }

  function RowPriv(r: Option<Row>): nat {
    if r.Some? then r.value.permission else 0
  }

  predicate IsShareGrant(r: Option<Row>) {
    r.Some? && r.value.share
  }

  /** Access from anything other than the user's own share grant on the listed node. */
  predicate HasStanding(t: Table, user: string, s: Share, above: seq<string>) {
    var direct := DirectRow(t, user, s.listed);
    UserPermission(t, user, s.listed, above) > (if IsShareGrant(direct) then RowPriv(direct) else 0) ||
    (direct.Some? && !IsShareGrant(direct) && RowPriv(direct) > 0)
  }

  function CapPriv(caps: set<Cap>): nat {
    if CanEdit in caps then MODIFY else if CanChat in caps then WRITE else READ
  }

  function GrantTarget(t: Table, user: string, s: Share): nat {
    var own := DirectRow(t, user, s.node);
    Max(CapPriv(s.caps), if IsShareGrant(own) then RowPriv(own) else 0)
  }

  /** `privilege & 0b0000011`. */
  function ReadBits(privilege: nat): nat {
    privilege % 4
  }

  predicate IsFileShare(s: Share) {
    s.listed != s.node
  }

  // ----- one open -----

  predicate Recipient(t: Table, user: string, s: Share, above: seq<string>) {
    user != s.creator && !HasStanding(t, user, s, above)
  }

  function Grant(t: Table, node: string, user: string, row: Row): Table {
    t.(rows := t.rows[(node, user) := row])
  }

  function TableAfter(t: Table, user: string, o: Open, above: seq<string>): Table {
    var s, target := o.share, GrantTarget(t, user, o.share);
    if !Recipient(t, user, s, above) || o.fate.Refused? then t
    else
      var granted := Grant(t, s.node, user, Row(target, false, true));
      if IsFileShare(s) && o.fate.Granted? then Grant(granted, s.listed, user, Row(ReadBits(target), true, true))
      else granted
  }

  /** Bound to the recipient once every grant is stored, else to the creator; clamped below full edit. */
  function SessionAfter(t: Table, user: string, o: Open, above: seq<string>): Session {
    var target := GrantTarget(t, user, o.share);
    if !Recipient(t, user, o.share, above) then Session(user, None)
    else Session(if Stored(o) then user else o.share.creator, if target < MODIFY then Some(target) else None)
  }

  predicate Stored(o: Open) {
    o.fate.Granted? || (o.fate.NodeOnly? && !IsFileShare(o.share))
  }

  // ----- what one open comes to -----

  /** The row an earlier share left on the shared node. */
  predicate HasShareGrant(t: Table, user: string, node: string) {
    (node, user) in t.rows && t.rows[(node, user)].share
  }

  function LinkLevel(s: Share): nat {
    if CanEdit in s.caps then 15 else if CanChat in s.caps then 7 else 3
  }

  /** A recipient's level is the link's or that of the share grant they already have, whichever is higher. */
  predicate IsLevel(level: nat, t: Table, user: string, s: Share) {
    level >= LinkLevel(s) && (HasShareGrant(t, user, s.node) ==> level >= t.rows[(s.node, user)].permission) &&
    (level == LinkLevel(s) || (HasShareGrant(t, user, s.node) && level == t.rows[(s.node, user)].permission))
  }

  /** Standing users and the creator are themselves, without a ceiling, and nothing is granted. */
  predicate OwnSession(t: Table, user: string, session: Session, u: Table) {
    session.uid == user && session.ceiling.None? && u == t
  }

  /** Every grant of the open was stored: one on the shared node, and a file share's on the parent. */
  predicate AllStored(o: Open) {
    o.fate == Granted || (o.fate == NodeOnly && o.share.listed == o.share.node)
  }

  /** A recipient is themselves if every grant was stored, else the creator, and is clamped below full edit. */
  predicate RecipientSession(o: Open, user: string, session: Session, level: nat) {
    (session.uid == user <==> AllStored(o)) && (session.uid == o.share.creator <==> !AllStored(o)) &&
    (level >= 15 ==> session.ceiling == None) && (level < 15 ==> session.ceiling == Some(level))
  }

  /** A recipient's rows: the level on the shared node, its read bits as a root on a file's parent; no others change. */
  predicate RecipientRows(t: Table, user: string, o: Open, u: Table, level: nat) {
    var s := o.share;
    u.members == t.members &&
    (o.fate == Refused ==> u.rows == t.rows) &&
    (o.fate != Refused ==>
       u.rows.Keys == t.rows.Keys + {(s.node, user)} +
         (if s.listed != s.node && o.fate == Granted then {(s.listed, user)} else {}) &&
       u.rows[(s.node, user)] == Row(level, false, true)) &&
    (o.fate == Granted && s.listed != s.node ==> u.rows[(s.listed, user)] == Row(level % 4, true, true)) &&
    forall k <- t.rows :: k.1 != user || (k.0 != s.node && k.0 != s.listed) ==> k in u.rows && u.rows[k] == t.rows[k]
  }

  lemma OpenOutcome(t: Table, user: string, o: Open, above: seq<string>) returns (level: nat)
    ensures IsLevel(level, t, user, o.share)
    ensures HasStanding(t, user, o.share, above) || user == o.share.creator ==>
              OwnSession(t, user, SessionAfter(t, user, o, above), TableAfter(t, user, o, above))
    ensures !HasStanding(t, user, o.share, above) && user != o.share.creator ==>
              RecipientSession(o, user, SessionAfter(t, user, o, above), level) &&
              RecipientRows(t, user, o, TableAfter(t, user, o, above), level)
  {
    level := GrantTarget(t, user, o.share);
  }

  /** The share's permission table, changed by each open. */
  class ShareDesk {
    var members: map<string, nat>
    var rows: map<(string, string), Row>
    const above: string -> seq<string>

    function Now(): Table
      reads this
    {
      Table(members, rows)
    }

    constructor (t: Table, above: string -> seq<string>)
      ensures Now() == t && this.above == above
    {
      members, rows := t.members, t.rows;
      this.above := above;
    }

    method Login(user: string, o: Open) returns (session: Session)
      modifies `rows
      ensures Now() == TableAfter(old(Now()), user, o, above(o.share.listed))
      ensures session == SessionAfter(old(Now()), user, o, above(o.share.listed))
      ensures HasStanding(old(Now()), user, o.share, above(o.share.listed)) || user == o.share.creator ==>
                OwnSession(old(Now()), user, session, Now())
      ensures !HasStanding(old(Now()), user, o.share, above(o.share.listed)) && user != o.share.creator ==>
                exists level :: IsLevel(level, old(Now()), user, o.share) &&
                                RecipientSession(o, user, session, level) &&
                                RecipientRows(old(Now()), user, o, Now(), level)
    {
      ghost var level := OpenOutcome(Now(), user, o, above(o.share.listed));
      var s := o.share;
      var memberPriv := UserPermission(Now(), user, s.listed, above(s.listed));
      var standing := DirectRow(Now(), user, s.listed);
      var standingIsOwn := IsShareGrant(standing);
      var hasStanding := memberPriv > (if standingIsOwn then RowPriv(standing) else 0) ||
                         (standing.Some? && !standingIsOwn && RowPriv(standing) > 0);
      var own := if s.node == s.listed then standing else DirectRow(Now(), user, s.node);
      var ownShareGrant := if IsShareGrant(own) then RowPriv(own) else 0;
      if hasStanding || user == s.creator {
        return Session(user, None);
      }
      var newCapPriv := READ;
      if CanChat in s.caps { newCapPriv := WRITE; }
      if CanEdit in s.caps { newCapPriv := MODIFY; }
      var grantTarget := Max(newCapPriv, ownShareGrant);
      var ceiling := if grantTarget < MODIFY then Some(grantTarget) else None;
      var bindUid := s.creator;
      if !o.fate.Refused? {
        rows := rows[(s.node, user) := Row(grantTarget, false, true)];
        if s.listed != s.node && o.fate.Granted? {
          rows := rows[(s.listed, user) := Row(ReadBits(grantTarget), true, true)];
        }
        if Stored(o) { bindUid := user; }
      }
      session := Session(bindUid, ceiling);
    }
  }

  // ----- what one open may lower -----

  predicate Lowers(t: Table, u: Table, user: string, node: string) {
    (node, user) in t.rows && RowPriv(DirectRow(u, user, node)) < t.rows[(node, user)].permission
  }

  /**
   * Upgrade-only, and exactly when not: an open lowers a stored row just when a file share rewrites
   * a stronger row on the parent, or replaces a stronger grant on the file that no share gave.
   */
  lemma OpenLowersExactly(t: Table, user: string, o: Open, above: seq<string>, node: string)
    ensures Lowers(t, TableAfter(t, user, o, above), user, node) <==>
              Recipient(t, user, o.share, above) && IsFileShare(o.share) && (node, user) in t.rows &&
              ((node == o.share.listed && o.fate.Granted? &&
                t.rows[(node, user)].permission > ReadBits(GrantTarget(t, user, o.share))) ||
               (node == o.share.node && !o.fate.Refused? && !t.rows[(node, user)].share &&
                t.rows[(node, user)].permission > CapPriv(o.share.caps)))
  {
    var direct := DirectRow(t, user, o.share.listed);
    if node == o.share.node && !IsFileShare(o.share) && direct.Some? && !direct.value.share &&
      direct.value.permission > 0 {
      assert HasStanding(t, user, o.share, above);
    }
  }

  /** A file share of view level: its visit writes a read-only root on the parent folder. */
  function ViewFile(file: string, folder: string, creator: string): Open {
    Open(Share(file, folder, {CanView}, creator), Granted)
  }

  /** So a recipient who may write in a shared folder loses that by viewing a shared file in it. */
  lemma FileShareLowersFolderGrant(user: string, file: string, folder: string, creator: string)
    requires user != creator && file != folder
    ensures var t := Table(map[], map[(folder, user) := Row(WRITE, false, true)]);
            Lowers(t, TableAfter(t, user, ViewFile(file, folder, creator), []), user, folder)
  {
    var t := Table(map[], map[(folder, user) := Row(WRITE, false, true)]);
    OpenLowersExactly(t, user, ViewFile(file, folder, creator), [], folder);
  }

  predicate HasRow(t: Table, user: string, node: string) {
    (node, user) in t.rows
  }

  /** What is inherited is what the nearest row above gives, unless it is a root; without a row, nothing. */
  lemma {:induction false} InheritedExactly(t: Table, user: string, above: seq<string>, i: nat)
    requires i <= |above| && forall j :: 0 <= j < i ==> !HasRow(t, user, above[j])
    requires i < |above| ==> HasRow(t, user, above[i])
    ensures Inherited(t, user, above)
         == if i == |above| || t.rows[(above[i], user)].root then 0 else t.rows[(above[i], user)].permission
    decreases above
  {
    if i > 0 {
      assert !HasRow(t, user, above[0]);
      assert forall j :: 0 <= j < i - 1 ==> above[1..][j] == above[j + 1];
      InheritedExactly(t, user, above[1..], i - 1);
    }
  }

  /**
   * Without a membership, standing is a manual grant on the node or privilege inherited without a row.
   * A member counts as standing unless a leftover share grant on the listed node is at least as strong
   * as the membership, or there is no privilege at all.
   */
  lemma StandingExactly(t: Table, user: string, s: Share, above: seq<string>)
    ensures HasStanding(t, user, s, above) <==>
              (match DirectRow(t, user, s.listed)
               case Some(row) =>
                 if row.share then user in t.members && t.members[user] > row.permission
                 else row.permission > 0 || (user in t.members && t.members[user] > 0)
               case None => (if user in t.members then t.members[user] else Inherited(t, user, above)) > 0)
  {
  }

  /** A member whose leftover share grant is at least the membership is treated as a recipient. */
  lemma MemberTakenForRecipient(t: Table, user: string, s: Share, above: seq<string>)
    requires user in t.members && user != s.creator
    ensures Recipient(t, user, s, above) <==>
              (match DirectRow(t, user, s.listed)
               case Some(row) => t.members[user] <= (if row.share then row.permission else 0) &&
                 (row.share || row.permission == 0)
               case None => t.members[user] == 0)
  {
    StandingExactly(t, user, s, above);
  }

  /** A share inside an already granted folder takes the recipient for a standing principal. */
  lemma NestedShareLooksStanding(t: Table, user: string, outer: Open, inner: Share, aboveOuter: seq<string>,
      aboveInner: seq<string>)
    requires Recipient(t, user, outer.share, aboveOuter) && !outer.fate.Refused? && !IsFileShare(outer.share)
    requires user !in t.members && (inner.listed, user) !in t.rows && inner.listed != outer.share.node
    requires aboveInner != [] && aboveInner[0] == outer.share.node
    ensures HasStanding(TableAfter(t, user, outer, aboveOuter), user, inner, aboveInner)
  {
  }

  // ----- runs of opens -----

  function RunTable(t: Table, user: string, opens: seq<Open>, above: string -> seq<string>): Table {
    if opens == [] then t
    else
      var last := opens[|opens| - 1];
      TableAfter(RunTable(t, user, opens[..|opens| - 1], above), user, last, above(last.share.listed))
  }

  /** The highest level whose grant on `node` was stored; 0 when there is none. */
  function Earned(opens: seq<Open>, node: string): nat {
    if opens == [] then 0
    else
      var last := opens[|opens| - 1];
      var before := Earned(opens[..|opens| - 1], node);
      if last.share.node == node && !last.fate.Refused? then Max(before, CapPriv(last.share.caps)) else before
  }

  /**
   * Shares that do not get in one another's way: no listed node lies below a shared one, and a node
   * shared as a folder is not the parent of a shared file.
   */
  predicate Unrelated(opens: seq<Open>, above: string -> seq<string>) {
    forall i, j :: 0 <= i < |opens| && 0 <= j < |opens| ==>
      opens[j].share.node !in above(opens[i].share.listed) &&
      (opens[j].share.node == opens[i].share.listed ==> !IsFileShare(opens[i].share))
  }

  /** A user without membership or grants of their own, who created none of the shares. */
  predicate Newcomer(t: Table, user: string, opens: seq<Open>) {
    user !in t.members && (forall k <- t.rows :: k.1 != user) &&
    forall i :: 0 <= i < |opens| ==> opens[i].share.creator != user
  }

  /** The user's row on a shared node is what was earned there. */
  predicate EarnedAt(t: Table, user: string, opens: seq<Open>, node: string) {
    if Earned(opens, node) == 0 then (node, user) !in t.rows
    else (node, user) in t.rows && t.rows[(node, user)] == Row(Earned(opens, node), false, true)
  }

  /** The user's rows after some opens: what was earned on shared nodes, read-only roots on listed parents. */
  predicate EarnedRows(t: Table, user: string, opens: seq<Open>, all: seq<Open>) {
    user !in t.members && (forall i :: 0 <= i < |all| ==> EarnedAt(t, user, opens, all[i].share.node)) &&
    OtherRowsAreRoots(t, user, all)
  }

  predicate SharedBy(all: seq<Open>, node: string) {
    exists i :: 0 <= i < |all| && node == all[i].share.node
  }

  predicate OtherRowsAreRoots(t: Table, user: string, all: seq<Open>) {
    forall k <- t.rows :: k.1 == user && !SharedBy(all, k.0) ==> t.rows[k] == Row(READ, true, true)
  }

  /** Above a listed node only read-only roots can lie, so nothing is inherited. */
  lemma {:induction false} NothingInherited(t: Table, user: string, opens: seq<Open>, all: seq<Open>,
      above: seq<string>)
    requires EarnedRows(t, user, opens, all)
    requires forall j :: 0 <= j < |all| ==> all[j].share.node !in above
    ensures Inherited(t, user, above) == 0
    decreases above
  {
    if above != [] {
      if (above[0], user) in t.rows {
        assert above[0] in above;
      } else {
        NothingInherited(t, user, opens, all, above[1..]);
      }
    }
  }

  lemma NeverStanding(t: Table, user: string, opens: seq<Open>, all: seq<Open>, k: nat, above: string -> seq<string>)
    requires EarnedRows(t, user, opens, all) && Unrelated(all, above) && k < |all|
    ensures !HasStanding(t, user, all[k].share, above(all[k].share.listed))
  {
    var s := all[k].share;
    NothingInherited(t, user, opens, all, above(s.listed));
    if SharedBy(all, s.listed) {
      var i :| 0 <= i < |all| && s.listed == all[i].share.node;
      assert EarnedAt(t, user, opens, s.listed);
    }
  }

  lemma {:induction false} EarnedLevels(opens: seq<Open>, node: string)
    ensures Earned(opens, node) in {0, READ, WRITE, MODIFY}
    decreases opens
  {
    if opens != [] { EarnedLevels(opens[..|opens| - 1], node); }
  }

  /** The row on one shared node after an open aimed at what has been earned there. */
  lemma EarnedAfter(t: Table, user: string, opens: seq<Open>, o: Open, above: seq<string>, node: string)
    requires Recipient(t, user, o.share, above)
    requires EarnedAt(t, user, opens, node) && (node == o.share.listed ==> !IsFileShare(o.share))
    requires GrantTarget(t, user, o.share) == Max(CapPriv(o.share.caps), Earned(opens, o.share.node))
    ensures EarnedAt(TableAfter(t, user, o, above), user, opens + [o], node)
  {
    LastOf(opens, o);
  }

  /** Off the shared nodes an open only writes a read-only root. */
  lemma RootsAfter(t: Table, user: string, all: seq<Open>, k: nat, above: seq<string>)
    requires k < |all| && OtherRowsAreRoots(t, user, all) && ReadBits(GrantTarget(t, user, all[k].share)) == READ
    ensures OtherRowsAreRoots(TableAfter(t, user, all[k], above), user, all)
  {
    var s := all[k].share;
    assert SharedBy(all, s.node);
  }

  /** A recipient's next open raises the shared node's row to what it has now earned, and nothing else. */
  lemma NextOpen(t: Table, user: string, opens: seq<Open>, all: seq<Open>, k: nat, above: string -> seq<string>)
    requires EarnedRows(t, user, opens, all) && Unrelated(all, above) && k < |all|
    requires all[k].share.creator != user
    ensures var o := all[k];
            Recipient(t, user, o.share, above(o.share.listed)) &&
            GrantTarget(t, user, o.share) == Max(CapPriv(o.share.caps), Earned(opens, o.share.node)) &&
            EarnedRows(TableAfter(t, user, o, above(o.share.listed)), user, opens + [o], all)
  {
    var o := all[k];
    var up := above(o.share.listed);
    NeverStanding(t, user, opens, all, k, above);
    EarnedLevels(opens, o.share.node);
    assert EarnedAt(t, user, opens, o.share.node);
    RootsAfter(t, user, all, k, up);
    forall i | 0 <= i < |all| ensures EarnedAt(TableAfter(t, user, o, up), user, opens + [o], all[i].share.node) {
      EarnedAfter(t, user, opens, o, up, all[i].share.node);
    }
  }

  lemma {:induction false} RunEarns(t: Table, user: string, all: seq<Open>, n: nat, above: string -> seq<string>)
    requires Newcomer(t, user, all) && Unrelated(all, above) && n <= |all|
    ensures EarnedRows(RunTable(t, user, all[..n], above), user, all[..n], all)
    decreases n
  {
    if n == 0 {
      Whole(all);
    } else {
      RunEarns(t, user, all, n - 1, above);
      assert all[..n][..n - 1] == all[..n - 1] && all[..n] == all[..n - 1] + [all[n - 1]];
      NextOpen(RunTable(t, user, all[..n - 1], above), user, all[..n - 1], all, n - 1, above);
    }
  }

  /**
   * Over any run of unrelated shares a newcomer is never taken for a standing principal, the row on
   * each shared node is the highest level earned so far, and each session is clamped to that level
   * unless it is full edit.
   */
  lemma RunIsUpgradeOnly(t: Table, user: string, all: seq<Open>, n: nat, above: string -> seq<string>)
    requires Newcomer(t, user, all) && Unrelated(all, above) && n < |all|
    ensures var before, o := RunTable(t, user, all[..n], above), all[n];
            var after := RunTable(t, user, all[..n + 1], above);
            var earned := Max(CapPriv(o.share.caps), Earned(all[..n], o.share.node));
            !HasStanding(before, user, o.share, above(o.share.listed)) &&
            after == TableAfter(before, user, o, above(o.share.listed)) &&
            SessionAfter(before, user, o, above(o.share.listed))
              == Session(if Stored(o) then user else o.share.creator, if earned < MODIFY then Some(earned) else None) &&
            (!o.fate.Refused? ==> DirectRow(after, user, o.share.node) == Some(Row(earned, false, true)))
    ensures forall i :: 0 <= i < |all| ==>
              RowPriv(DirectRow(RunTable(t, user, all[..n], above), user, all[i].share.node))
                == Earned(all[..n], all[i].share.node)
              <= RowPriv(DirectRow(RunTable(t, user, all[..n + 1], above), user, all[i].share.node))
  {
    RunEarns(t, user, all, n, above);
    RunEarns(t, user, all, n + 1, above);
    NextOpen(RunTable(t, user, all[..n], above), user, all[..n], all, n, above);
    assert all[..n + 1][..n] == all[..n];
  }
}
