/** Which comments of a saved document are new: the multiset difference of two comment lists. */
module OfficeComments {
  import opened Options
  import opened Sequences

  /** A comment as `newComments` sees it; `ordinal` is its place in date order, where the format has one. */
  datatype Comment = Comment(key: string, ordinal: Option<string>, body: string)

  predicate AnchorKeyed(c: Comment) {
    "a:" <= c.key
  }

  /** A document going from anchors only to stored comments is compared by ordinal. */
  predicate ByOrdinal(before: seq<Comment>, after: seq<Comment>) {
    (exists c :: c in before && AnchorKeyed(c)) && (exists c :: c in after && c.ordinal.Some?)
  }

  function KeyUnder(c: Comment, byOrdinal: bool): string {
    if byOrdinal && c.ordinal.Some? then c.ordinal.value else c.key
  }

  function Keys(cs: seq<Comment>, byOrdinal: bool): seq<string> {
    if cs == [] then [] else Keys(cs[..|cs| - 1], byOrdinal) + [KeyUnder(cs[|cs| - 1], byOrdinal)]
  }

  /** The comments of `after` beyond the first `had[k]` of each key `k`. */
  function Beyond(had: multiset<string>, after: seq<Comment>, byOrdinal: bool): seq<Comment> {
    if after == [] then []
    else
      var earlier, last := after[..|after| - 1], after[|after| - 1];
      var k := KeyUnder(last, byOrdinal);
      Beyond(had, earlier, byOrdinal) + (if multiset(Keys(earlier, byOrdinal))[k] >= had[k] then [last] else [])
  }

  /** Either side unreadable: nothing can be told apart, so nothing is new. */
  function NewOf(before: Option<seq<Comment>>, after: Option<seq<Comment>>): seq<Comment> {
    if before.None? || after.None? then []
    else Beyond(multiset(Keys(before.value, false)), after.value, ByOrdinal(before.value, after.value))
  }

  // ----- the difference is a multiset difference, in order -----

  lemma KeysOneMore(cs: seq<Comment>, c: Comment, byOrdinal: bool)
    ensures Keys(cs + [c], byOrdinal) == Keys(cs, byOrdinal) + [KeyUnder(c, byOrdinal)]
    ensures multiset(Keys(cs + [c], byOrdinal)) == multiset(Keys(cs, byOrdinal))[KeyUnder(c, byOrdinal) :=
              multiset(Keys(cs, byOrdinal))[KeyUnder(c, byOrdinal)] + 1]
  {
    LastOf(cs, c);
  }

  lemma DifferenceOneMore(all: multiset<string>, had: multiset<string>, k: string)
    ensures all[k := all[k] + 1] - had
         == if all[k] >= had[k] then (all - had)[k := (all - had)[k] + 1] else all - had
  {
  }

  lemma BeyondOneMore(had: multiset<string>, past: seq<Comment>, c: Comment, byOrdinal: bool)
    ensures Beyond(had, past + [c], byOrdinal)
         == if multiset(Keys(past, byOrdinal))[KeyUnder(c, byOrdinal)] >= had[KeyUnder(c, byOrdinal)]
            then Beyond(had, past, byOrdinal) + [c] else Beyond(had, past, byOrdinal)
  {
    LastOf(past, c);
    Unit(Beyond(had, past, byOrdinal));
  }

  predicate CountsDiffer(had: multiset<string>, after: seq<Comment>, byOrdinal: bool) {
    multiset(Keys(Beyond(had, after, byOrdinal), byOrdinal)) == multiset(Keys(after, byOrdinal)) - had
  }

  /** Each key is as often among the new comments as it is more often in `after`. */
  lemma {:induction false} BeyondCounts(had: multiset<string>, after: seq<Comment>, byOrdinal: bool)
    ensures CountsDiffer(had, after, byOrdinal)
  {
    if after != [] {
      var earlier, last := after[..|after| - 1], after[|after| - 1];
      InitLast(after);
      BeyondCounts(had, earlier, byOrdinal);
      CountsOneMore(had, earlier, last, byOrdinal);
    }
  }

  lemma CountsOneMore(had: multiset<string>, past: seq<Comment>, c: Comment, byOrdinal: bool)
    requires CountsDiffer(had, past, byOrdinal)
    ensures CountsDiffer(had, past + [c], byOrdinal)
  {
    BeyondOneMore(had, past, c, byOrdinal);
    KeysOneMore(past, c, byOrdinal);
    KeysOneMore(Beyond(had, past, byOrdinal), c, byOrdinal);
    DifferenceOneMore(multiset(Keys(past, byOrdinal)), had, KeyUnder(c, byOrdinal));
  }

  predicate SubsequenceOf(xs: seq<Comment>, ys: seq<Comment>) {
    xs == [] || (ys != [] &&
      ((xs[|xs| - 1] == ys[|ys| - 1] && SubsequenceOf(xs[..|xs| - 1], ys[..|ys| - 1])) ||
       SubsequenceOf(xs, ys[..|ys| - 1])))
  }

  lemma SubsequenceGrows(xs: seq<Comment>, ys: seq<Comment>, y: Comment)
    requires SubsequenceOf(xs, ys)
    ensures SubsequenceOf(xs, ys + [y]) && SubsequenceOf(xs + [y], ys + [y])
  {
    LastOf(ys, y);
    LastOf(xs, y);
  }

  /** The new comments keep the order of `after`. */
  lemma {:induction false} BeyondInOrder(had: multiset<string>, after: seq<Comment>, byOrdinal: bool)
    ensures SubsequenceOf(Beyond(had, after, byOrdinal), after)
  {
    if after != [] {
      var earlier, last := after[..|after| - 1], after[|after| - 1];
      BeyondInOrder(had, earlier, byOrdinal);
      BeyondOneMore(had, earlier, last, byOrdinal);
      SubsequenceGrows(Beyond(had, earlier, byOrdinal), earlier, last);
      InitLast(after);
    }
  }

  /** Of equal comments the earlier ones are the known ones: a longer list only adds at its end. */
  lemma {:induction false} BeyondExtends(had: multiset<string>, after: seq<Comment>, more: seq<Comment>,
      byOrdinal: bool)
    ensures Beyond(had, after, byOrdinal) <= Beyond(had, after + more, byOrdinal)
    decreases more
  {
    if more == [] {
      assert after + more == after;
    } else {
      BeyondExtends(had, after, more[..|more| - 1], byOrdinal);
      EndOf(after, more);
    }
  }

  lemma {:induction false} KeysMembers(cs: seq<Comment>, byOrdinal: bool)
    ensures |Keys(cs, byOrdinal)| == |cs|
    ensures forall i :: 0 <= i < |cs| ==> Keys(cs, byOrdinal)[i] == KeyUnder(cs[i], byOrdinal)
  {
    if cs != [] {
      KeysMembers(cs[..|cs| - 1], byOrdinal);
    }
  }

  lemma SameKeysSameAnchors(before: seq<Comment>, shuffled: seq<Comment>)
    requires multiset(Keys(before, false)) == multiset(Keys(shuffled, false))
    ensures (exists c :: c in before && AnchorKeyed(c)) ==> (exists c :: c in shuffled && AnchorKeyed(c))
  {
    KeysMembers(before, false);
    KeysMembers(shuffled, false);
    if c :| c in before && AnchorKeyed(c) {
      var i :| 0 <= i < |before| && before[i] == c;
      assert Keys(before, false)[i] in multiset(Keys(shuffled, false));
      var j :| 0 <= j < |shuffled| && Keys(shuffled, false)[j] == c.key;
      assert shuffled[j] in shuffled && AnchorKeyed(shuffled[j]);
    }
  }

  /** The order of the comments a document had does not matter. */
  lemma OrderOfBeforeIsIrrelevant(before: seq<Comment>, shuffled: seq<Comment>, after: seq<Comment>)
    requires multiset(Keys(before, false)) == multiset(Keys(shuffled, false))
    ensures NewOf(Some(before), Some(after)) == NewOf(Some(shuffled), Some(after))
  {
    SameKeysSameAnchors(before, shuffled);
    SameKeysSameAnchors(shuffled, before);
  }

  // ----- the loop of the source -----

  function Left(seen: map<string, nat>, k: string): nat {
    if k in seen then seen[k] else 0
  }

  /** `seen` counts the keys of `before`. */
  method CountKeys(before: seq<Comment>) returns (seen: map<string, nat>)
    ensures forall k :: Left(seen, k) == multiset(Keys(before, false))[k]
  {
    seen := map[];
    for i := 0 to |before|
      invariant forall k :: Left(seen, k) == multiset(Keys(before[..i], false))[k]
    {
      TakeNext(before, i);
      KeysOneMore(before[..i], before[i], false);
      seen := seen[before[i].key := Left(seen, before[i].key) + 1];
    }
    Whole(before);
  }

  /** How many comments of a key are still known after `taken` of it went by. */
  function Remaining(had: nat, taken: nat): nat {
    if taken < had then had - taken else 0
  }

  ghost predicate Counting(seen: map<string, nat>, had: multiset<string>, past: seq<Comment>, byOrdinal: bool) {
    forall k :: Left(seen, k) == Remaining(had[k], multiset(Keys(past, byOrdinal))[k])
  }

  /** One turn of the loop. */
  method Consider(seen: map<string, nat>, c: Comment, byOrdinal: bool, ghost had: multiset<string>,
      ghost past: seq<Comment>)
    returns (seen': map<string, nat>, isNew: bool)
    requires Counting(seen, had, past, byOrdinal)
    ensures Counting(seen', had, past + [c], byOrdinal)
    ensures isNew <==> multiset(Keys(past, byOrdinal))[KeyUnder(c, byOrdinal)] >= had[KeyUnder(c, byOrdinal)]
  {
    var k := KeyUnder(c, byOrdinal);
    KeysOneMore(past, c, byOrdinal);
    seen' := seen;
    var n := Left(seen, k);
    isNew := n == 0;
    if n > 0 { seen' := seen[k := n - 1]; }
  }

  /** The loop stands before position `i`. */
  ghost predicate Compared(out: seq<Comment>, seen: map<string, nat>, had: multiset<string>, cs: seq<Comment>, i: nat,
      byOrdinal: bool) {
    i <= |cs| && out == Beyond(had, cs[..i], byOrdinal) && Counting(seen, had, cs[..i], byOrdinal)
  }

  lemma ComparedNext(out: seq<Comment>, seen: map<string, nat>, had: multiset<string>, cs: seq<Comment>, i: nat,
      byOrdinal: bool, isNew: bool)
    requires i < |cs| && out == Beyond(had, cs[..i], byOrdinal) && Counting(seen, had, cs[..i] + [cs[i]], byOrdinal)
    requires isNew <==>
               multiset(Keys(cs[..i], byOrdinal))[KeyUnder(cs[i], byOrdinal)] >= had[KeyUnder(cs[i], byOrdinal)]
    ensures Compared(if isNew then out + [cs[i]] else out, seen, had, cs, i + 1, byOrdinal)
  {
    TakeNext(cs, i);
    BeyondOneMore(had, cs[..i], cs[i], byOrdinal);
  }

  lemma ComparedEnds(out: seq<Comment>, seen: map<string, nat>, had: multiset<string>, cs: seq<Comment>,
      byOrdinal: bool)
    ensures (forall k :: Left(seen, k) == had[k]) ==> Compared([], seen, had, cs, 0, byOrdinal)
    ensures Compared(out, seen, had, cs, |cs|, byOrdinal) ==> out == Beyond(had, cs, byOrdinal)
  {
    Whole(cs);
  }

  /** The loop over `after`: each comment is known as long as its key is left over. */
  method Compare(counts: map<string, nat>, cs: seq<Comment>, byOrdinal: bool, ghost had: multiset<string>)
    returns (out: seq<Comment>)
    requires forall k :: Left(counts, k) == had[k]
    ensures out == Beyond(had, cs, byOrdinal)
  {
    out := [];
    var seen, i := counts, 0;
    ComparedEnds(out, seen, had, cs, byOrdinal);
    while i < |cs|
      invariant Compared(out, seen, had, cs, i, byOrdinal)
    {
      var isNew;
      seen, isNew := Consider(seen, cs[i], byOrdinal, had, cs[..i]);
      ComparedNext(out, seen, had, cs, i, byOrdinal, isNew);
      if isNew { out := out + [cs[i]]; }
      i := i + 1;
    }
    ComparedEnds(out, seen, had, cs, byOrdinal);
  }

  method NewComments(before: Option<seq<Comment>>, after: Option<seq<Comment>>) returns (out: seq<Comment>)
    ensures out == NewOf(before, after)
    ensures before.None? || after.None? ==> out == []
  {
    if before.None? || after.None? { return []; }
    var seen := CountKeys(before.value);
    out := Compare(seen, after.value, ByOrdinal(before.value, after.value), multiset(Keys(before.value, false)));
  }
}
