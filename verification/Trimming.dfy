/** `String.prototype.trim`. */
module Trimming {
  /** White space and line ends as ECMAScript's `trim` knows them. */
  predicate IsSpace(c: char) {
    var u := c as int;
    9 <= u <= 13 || u == 32 || u == 0xA0 || u == 0x1680 || 0x2000 <= u <= 0x200A ||
    u == 0x2028 || u == 0x2029 || u == 0x202F || u == 0x205F || u == 0x3000 || u == 0xFEFF
  }

  function TrimStart(s: string): (r: string)
    ensures forall c <- r :: c in s
  {
    if s != [] && IsSpace(s[0]) then TrimStart(s[1..]) else s
  }

  function TrimEnd(s: string): (r: string)
    ensures forall c <- r :: c in s
  {
    if s != [] && IsSpace(s[|s| - 1]) then TrimEnd(s[..|s| - 1]) else s
  }

  function Trim(s: string): (r: string)
    ensures forall c <- r :: c in s
  {
    TrimEnd(TrimStart(s))
  }

  predicate AllSpace(s: string) {
    forall i :: 0 <= i < |s| ==> IsSpace(s[i])
  }

  /** Neither end is white space. */
  predicate Tight(s: string) {
    s != "" ==> !IsSpace(s[0]) && !IsSpace(s[|s| - 1])
  }

  lemma {:induction false} TrimStartDrops(lead: string, s: string)
    requires AllSpace(lead) && (s != "" ==> !IsSpace(s[0]))
    ensures TrimStart(lead + s) == s
    decreases lead
  {
    if lead == "" {
      assert lead + s == s;
    } else {
      assert (lead + s)[0] == lead[0] && (lead + s)[1..] == lead[1..] + s;
      TrimStartDrops(lead[1..], s);
    }
  }

  lemma {:induction false} TrimEndDrops(s: string, tail: string)
    requires AllSpace(tail) && (s != "" ==> !IsSpace(s[|s| - 1]))
    ensures TrimEnd(s + tail) == s
    decreases tail
  {
    if tail == "" {
      assert s + tail == s;
    } else {
      var init := tail[..|tail| - 1];
      assert (s + tail)[|s + tail| - 1] == tail[|tail| - 1] && (s + tail)[..|s + tail| - 1] == s + init;
      TrimEndDrops(s, init);
    }
  }

  /** Trimming takes the white space off both ends and nothing else. */
  lemma TrimIsTight(lead: string, s: string, tail: string)
    requires AllSpace(lead) && AllSpace(tail) && Tight(s)
    ensures Trim(lead + s + tail) == s
  {
    if s == "" {
      var all := lead + s + tail;
      TrimStartDrops(all, "");
      assert all + "" == all;
    } else {
      assert lead + s + tail == lead + (s + tail);
      TrimStartDrops(lead, s + tail);
      TrimEndDrops(s, tail);
    }
  }

  /** The characters taken off: tab to carriage return, the space, and the wider ones of Unicode. */
  lemma SpacesAre(c: char)
    requires c as int < 0x80
    ensures IsSpace(c) <==> c in {' ', '\t', '\n', '\r'} || c as int == 11 || c as int == 12
  {
  }
}
