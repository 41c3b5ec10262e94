/** Escaping and decoding XML text, both as the successive global replacements the source makes. */
module XmlText {
  import opened Sequences

  // ----- global replacement -----

  /** `s.replace(/pat/g, rep)` for a literal pattern: left to right, without overlaps. */
  function ReplaceAll(s: string, pat: string, rep: string): string
    requires pat != ""
    decreases s
  {
    if s == "" then ""
    else if pat <= s then rep + ReplaceAll(s[|pat|..], pat, rep)
    else [s[0]] + ReplaceAll(s[1..], pat, rep)
  }

  predicate IsDigit(c: char, hex: bool) {
    '0' <= c <= '9' || (hex && ('a' <= c <= 'f' || 'A' <= c <= 'F'))
  }

  function DigitRun(s: string, hex: bool): (n: nat)
    ensures n <= |s|
  {
    if s == "" || !IsDigit(s[0], hex) then 0 else 1 + DigitRun(s[1..], hex)
  }

  function RefHead(hex: bool): string {
    if hex then "&#x" else "&#"
  }

  /** Length of the digits of a numeric reference at the head of `s`; 0 when there is none. */
  function RefDigits(s: string, hex: bool): nat {
    if RefHead(hex) <= s then
      var body := s[|RefHead(hex)|..];
      var n := DigitRun(body, hex);
      if 0 < n < |body| && body[n] == ';' then n else 0
    else 0
  }

  /** The pass over numeric references; `code` is the character a reference's digits stand for. */
  function ReplaceRefs(s: string, hex: bool, code: (string, bool) -> string): string
    decreases s
  {
    if s == "" then ""
    else
      var n := RefDigits(s, hex);
      var start := |RefHead(hex)|;
      if n > 0 then code(s[start..start + n], hex) + ReplaceRefs(s[start + n + 1..], hex, code)
      else [s[0]] + ReplaceRefs(s[1..], hex, code)
  }

  // ----- the two functions of the source -----

  /** The five predefined entities of section 4.6 of XML 1.0. */
  function Entity(c: char): string {
    match c
    case '&' => "&amp;"
    case '<' => "&lt;"
    case '>' => "&gt;"
    case '"' => "&quot;"
    case '\'' => "&apos;"
    case _ => [c]
  }

  const SPECIAL := {'&', '<', '>', '"', '\''}

  function EscXml(s: string): string {
    var a := ReplaceAll(s, "&", "&amp;");
    var b := ReplaceAll(a, "<", "&lt;");
    var c := ReplaceAll(b, ">", "&gt;");
    var d := ReplaceAll(c, "\"", "&quot;");
    ReplaceAll(d, "'", "&apos;")
  }

  function Decode(s: string, code: (string, bool) -> string): string {
    var a := ReplaceAll(s, "&lt;", "<");
    var b := ReplaceAll(a, "&gt;", ">");
    var c := ReplaceAll(b, "&quot;", "\"");
    var d := ReplaceAll(c, "&apos;", "'");
    var e := ReplaceRefs(d, true, code);
    var f := ReplaceRefs(e, false, code);
    ReplaceAll(f, "&amp;", "&")
  }

  // ----- text with some characters escaped -----

  /** Every character of `done` written as its entity. */
  function Enc(s: string, done: set<char>): string {
    if s == "" then "" else (if s[0] in done then Entity(s[0]) else [s[0]]) + Enc(s[1..], done)
  }

  /** A stretch in which the pattern cannot start is copied. */
  lemma {:induction false} CopyUntil(xs: string, rest: string, pat: string, rep: string)
    requires pat != "" && pat[0] !in xs
    ensures ReplaceAll(xs + rest, pat, rep) == xs + ReplaceAll(rest, pat, rep)
    decreases xs
  {
    if xs == "" {
      assert xs + rest == rest;
    } else {
      HeadOf(xs, rest);
      assert (xs + rest)[0] == xs[0] && xs[0] in xs;
      CopyUntil(xs[1..], rest, pat, rep);
    }
  }

  /** An escaping pass turns one more character into its entity. */
  lemma {:induction false} EscapePass(s: string, done: set<char>, c: char)
    requires c in SPECIAL && c !in done && done <= SPECIAL && (c == '&' ==> done == {})
    ensures ReplaceAll(Enc(s, done), [c], Entity(c)) == Enc(s, done + {c})
    decreases s
  {
    if s != "" {
      var head, rest := if s[0] in done then Entity(s[0]) else [s[0]], Enc(s[1..], done);
      EscapePass(s[1..], done, c);
      if s[0] == c {
        assert [c] <= head + rest && (head + rest)[1..] == rest;
      } else {
        assert c !in head;
        CopyUntil(head, rest, [c], Entity(c));
      }
    }
  }

  lemma EntitiesDiffer(x: char, c: char, rest: string)
    requires x in SPECIAL && c in SPECIAL && x != c
    ensures !(Entity(c) <= Entity(x) + rest)
  {
    assert Entity(x)[1] != Entity(c)[1] || Entity(x)[2] != Entity(c)[2];
    assert (Entity(x) + rest)[..3] == Entity(x)[..3];
  }

  /** No entity starts inside another one. */
  lemma SkipEntity(x: char, rest: string, c: char)
    requires c in SPECIAL && x in SPECIAL && x != c
    ensures ReplaceAll(Entity(x) + rest, Entity(c), [c]) == Entity(x) + ReplaceAll(rest, Entity(c), [c])
  {
    var head := Entity(x);
    EntityParts(x);
    EntityParts(c);
    EntitiesDiffer(x, c, rest);
    HeadOf(head, rest);
    CopyUntil(head[1..], rest, Entity(c), [c]);
    Associative([head[0]], head[1..], ReplaceAll(rest, Entity(c), [c]));
  }

  /** A decoding pass turns one entity back into its character. */
  lemma {:induction false} DecodePass(s: string, done: set<char>, c: char)
    requires c in done && '&' in done && done <= SPECIAL
    ensures ReplaceAll(Enc(s, done), Entity(c), [c]) == Enc(s, done - {c})
    decreases s
  {
    if s != "" {
      var rest := Enc(s[1..], done);
      DecodePass(s[1..], done, c);
      if s[0] == c {
        assert (Entity(c) + rest)[|Entity(c)|..] == rest;
      } else if s[0] in done {
        SkipEntity(s[0], rest, c);
      } else {
        CopyUntil([s[0]], rest, Entity(c), [c]);
      }
    }
  }

  lemma {:induction false} NoRefs(xs: string, rest: string, hex: bool, code: (string, bool) -> string)
    requires '&' !in xs
    ensures ReplaceRefs(xs + rest, hex, code) == xs + ReplaceRefs(rest, hex, code)
    decreases xs
  {
    if xs == "" {
      assert xs + rest == rest;
    } else {
      HeadOf(xs, rest);
      assert (xs + rest)[0] == xs[0] && xs[0] in xs;
      NoRefs(xs[1..], rest, hex, code);
    }
  }

  /** An entity is an ampersand followed by text in which nothing else starts. */
  lemma EntityParts(x: char)
    requires x in SPECIAL
    ensures |Entity(x)| > 3 && Entity(x)[0] == '&' && '&' !in Entity(x)[1..] && Entity(x)[1] != '#'
  {
  }

  lemma NoRefHere(s: string, hex: bool)
    requires |s| > 1 && s[1] != '#'
    ensures RefDigits(s, hex) == 0
  {
    assert RefHead(hex)[1] == '#';
  }

  lemma EntityIsNoRef(x: char, rest: string, hex: bool, code: (string, bool) -> string)
    requires x in SPECIAL
    ensures ReplaceRefs(Entity(x) + rest, hex, code) == Entity(x) + ReplaceRefs(rest, hex, code)
  {
    var head := Entity(x);
    EntityParts(x);
    HeadOf(head, rest);
    NoRefHere(head + rest, hex);
    NoRefs(head[1..], rest, hex, code);
    Associative([head[0]], head[1..], ReplaceRefs(rest, hex, code));
  }

  /** Escaped text holds no numeric references. */
  lemma {:induction false} RefPass(s: string, done: set<char>, hex: bool, code: (string, bool) -> string)
    requires '&' in done && done <= SPECIAL
    ensures ReplaceRefs(Enc(s, done), hex, code) == Enc(s, done)
    decreases s
  {
    if s != "" {
      var head, rest := if s[0] in done then Entity(s[0]) else [s[0]], Enc(s[1..], done);
      RefPass(s[1..], done, hex, code);
      if s[0] in done {
        EntityIsNoRef(s[0], rest, hex, code);
      } else {
        NoRefs(head, rest, hex, code);
      }
    }
  }

  lemma {:induction false} EncNothing(s: string)
    ensures Enc(s, {}) == s
    decreases s
  {
    if s != "" { EncNothing(s[1..]); }
  }

  lemma EscXmlIsEnc(s: string)
    ensures EscXml(s) == Enc(s, SPECIAL)
  {
    EncNothing(s);
    EscapePass(s, {}, '&');
    EscapePass(s, {'&'}, '<');
    EscapePass(s, {'&', '<'}, '>');
    EscapePass(s, {'&', '<', '>'}, '"');
    EscapePass(s, {'&', '<', '>', '"'}, '\'');
    assert {} + {'&'} == {'&'};
    assert {'&'} + {'<'} == {'&', '<'};
    assert {'&', '<'} + {'>'} == {'&', '<', '>'};
    assert {'&', '<', '>'} + {'"'} == {'&', '<', '>', '"'};
    assert {'&', '<', '>', '"'} + {'\''} == SPECIAL;
  }

  /** Decoding undoes escaping on every string, whatever numeric references would decode to. */
  lemma DecodeUndoesEscXml(s: string, code: (string, bool) -> string)
    ensures Decode(EscXml(s), code) == s
  {
    EscXmlIsEnc(s);
    DecodePass(s, SPECIAL, '<');
    DecodePass(s, {'&', '>', '"', '\''}, '>');
    DecodePass(s, {'&', '"', '\''}, '"');
    DecodePass(s, {'&', '\''}, '\'');
    assert SPECIAL - {'<'} == {'&', '>', '"', '\''};
    assert {'&', '>', '"', '\''} - {'>'} == {'&', '"', '\''};
    assert {'&', '"', '\''} - {'"'} == {'&', '\''};
    assert {'&', '\''} - {'\''} == {'&'};
    RefPass(s, {'&'}, true, code);
    RefPass(s, {'&'}, false, code);
    DecodePass(s, {'&'}, '&');
    assert {'&'} - {'&'} == {};
    EncNothing(s);
  }

  /** Escaped text is safe as XML content: no markup or quote survives. */
  lemma EscXmlIsClean(s: string)
    ensures forall c :: c in EscXml(s) && c in SPECIAL ==> c == '&'
  {
    EscXmlIsEnc(s);
    EncIsClean(s);
  }

  lemma {:induction false} EncIsClean(s: string)
    ensures forall c :: c in Enc(s, SPECIAL) && c in SPECIAL ==> c == '&'
    decreases s
  {
    if s != "" { EncIsClean(s[1..]); }
  }

  // ----- numeric references -----

  /** Digits of base 16 or 10, at least one. */
  predicate Digits(ds: string, hex: bool) {
    ds != "" && forall i :: 0 <= i < |ds| ==>
      var u := ds[i] as int;
      48 <= u < 58 || (hex && (65 <= u < 71 || 97 <= u < 103))
  }

  /** `s` starts with a reference to these digits. */
  predicate StartsWithRef(s: string, hex: bool, ds: string) {
    Digits(ds, hex) && (if hex then "&#x" + ds + ";" else "&#" + ds + ";") <= s
  }

  lemma {:induction false} RunOfDigits(ds: string, rest: string, hex: bool)
    requires Digits(ds, hex) && (rest != "" ==> !IsDigit(rest[0], hex))
    ensures DigitRun(ds + rest, hex) == |ds|
    decreases ds
  {
    HeadOf(ds, rest);
    assert IsDigit(ds[0], hex);
    if |ds| > 1 {
      assert Digits(ds[1..], hex);
      RunOfDigits(ds[1..], rest, hex);
    } else {
      assert ds[1..] + rest == rest;
    }
  }

  lemma RefIsThere(ds: string, rest: string, hex: bool)
    requires Digits(ds, hex)
    ensures RefDigits(RefHead(hex) + (ds + (";" + rest)), hex) == |ds|
  {
    var head, body := RefHead(hex), ds + (";" + rest);
    assert (head + body)[|head|..] == body && body[|ds|] == ';';
    RunOfDigits(ds, ";" + rest, hex);
  }

  lemma PassOne(s: string, hex: bool, ds: string, rest: string, code: (string, bool) -> string)
    requires ds != "" && RefDigits(s, hex) == |ds|
    requires |RefHead(hex)| + |ds| < |s| && s[|RefHead(hex)|..|RefHead(hex)| + |ds|] == ds
    requires s[|RefHead(hex)| + |ds| + 1..] == rest
    ensures ReplaceRefs(s, hex, code) == code(ds, hex) + ReplaceRefs(rest, hex, code)
  {
  }

  lemma RefIsReplaced(ds: string, rest: string, hex: bool, code: (string, bool) -> string)
    requires Digits(ds, hex)
    ensures ReplaceRefs(RefHead(hex) + (ds + (";" + rest)), hex, code) == code(ds, hex) + ReplaceRefs(rest, hex, code)
  {
    var head := RefHead(hex);
    RefIsThere(ds, rest, hex);
    Middle(head, ds, ";" + rest);
    Middle(head, ds + ";", rest);
    Associative(ds, ";", rest);
    PassOne(head + (ds + (";" + rest)), hex, ds, rest, code);
  }

  /** A reference becomes the character its digits stand for, and the pass goes on behind it. */
  lemma RefIsDecoded(ds: string, rest: string, hex: bool, code: (string, bool) -> string)
    requires Digits(ds, hex)
    ensures ReplaceRefs((if hex then "&#x" else "&#") + ds + ";" + rest, hex, code)
         == code(ds, hex) + ReplaceRefs(rest, hex, code)
  {
    var head := if hex then "&#x" else "&#";
    RefIsReplaced(ds, rest, hex, code);
    Associative(head, ds, ";" + rest);
    Associative(head + ds, ";", rest);
  }

  lemma {:induction false} RunIsDigits(s: string, hex: bool)
    ensures DigitRun(s, hex) > 0 ==> Digits(s[..DigitRun(s, hex)], hex)
    decreases s
  {
    var n := DigitRun(s, hex);
    if n > 1 {
      RunIsDigits(s[1..], hex);
      assert s[..n][1..] == s[1..][..n - 1];
      assert forall i :: 0 < i < n ==> s[..n][i] == s[1..][..n - 1][i - 1];
    }
  }

  lemma FoundRef(s: string, hex: bool) returns (ds: string)
    requires RefDigits(s, hex) > 0
    ensures StartsWithRef(s, hex, ds)
  {
    var head, n := RefHead(hex), RefDigits(s, hex);
    var body := s[|head|..];
    RunIsDigits(body, hex);
    ds := body[..n];
    assert s[..|head|] == head && s[|head| + n] == ';';
    assert s[..|head| + n + 1] == head + ds + ";";
  }

  /** Where no reference starts, the character stays. */
  lemma OthersStay(s: string, hex: bool, code: (string, bool) -> string)
    requires s != "" && forall ds :: !StartsWithRef(s, hex, ds)
    ensures ReplaceRefs(s, hex, code) == [s[0]] + ReplaceRefs(s[1..], hex, code)
  {
    if RefDigits(s, hex) > 0 { var ds := FoundRef(s, hex); }
  }

  /** A text that is one reference decodes to its character, unless that is part of an entity itself. */
  lemma OneRefDecodes(ds: string, hex: bool, code: (string, bool) -> string)
    requires Digits(ds, hex) && '&' !in code(ds, hex)
    ensures Decode((if hex then "&#x" else "&#") + ds + ";", code) == code(ds, hex)
  {
    var s := (if hex then "&#x" else "&#") + ds + ";";
    RefHoldsNoEntity(ds, hex);
    NoEntityStays(s, "&lt;", "<");
    NoEntityStays(s, "&gt;", ">");
    NoEntityStays(s, "&quot;", "\"");
    NoEntityStays(s, "&apos;", "'");
    Unit(s);
    RefIsDecoded(ds, "", hex, code);
    Unit(code(ds, hex));
    if !hex { DecimalIsNoHex(ds, code); }
    if hex { NoRefs(code(ds, hex), "", false, code); }
    CopyUntil(code(ds, hex), "", "&amp;", "&");
  }

  /** The only ampersand of the text is at its start, and a number sign follows it. */
  predicate OneRef(s: string) {
    |s| > 1 && s[0] == '&' && s[1] == '#' && '&' !in s[1..]
  }

  lemma RefHoldsNoEntity(ds: string, hex: bool)
    requires Digits(ds, hex)
    ensures OneRef((if hex then "&#x" else "&#") + ds + ";")
  {
    assert '&' !in ds;
  }

  lemma NoEntityStays(s: string, pat: string, rep: string)
    requires OneRef(s) && |pat| > 1 && pat[0] == '&' && pat[1] != '#'
    ensures ReplaceAll(s, pat, rep) == s
  {
    CopyUntil(s[1..], "", pat, rep);
    Unit(s[1..]);
    assert !(pat <= s);
  }

  lemma DecimalIsNoHex(ds: string, code: (string, bool) -> string)
    requires Digits(ds, false)
    ensures ReplaceRefs("&#" + ds + ";", true, code) == "&#" + ds + ";"
  {
    var s := "&#" + ds + ";";
    RefHoldsNoEntity(ds, false);
    assert s[2] == ds[0] && ds[0] != 'x';
    assert RefHead(true)[2] == 'x';
    assert RefDigits(s, true) == 0;
    NoRefs(s[1..], "", true, code);
    Unit(s[1..]);
  }
}
