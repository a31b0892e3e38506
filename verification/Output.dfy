/**
  The output kept for an unknown check result: the trimmed text, cut on a UTF-8 boundary. Text is a
  sequence of bytes; well-formed UTF-8 is as in section 4 of RFC 3629.
 */
module Output {
  import opened Options

  newtype byte = x: int | 0 <= x < 256

  const MAX_OUTPUT := 512

  /** Whether an exit is a verdict: 0 the incident is gone, 1 it holds. */
  predicate Known(exit: Option<int>) {
    exit == Some(0) || exit == Some(1)
  }

  predicate RuneStart(b: byte) {
    !(0x80 <= b < 0xC0)
  }

  predicate Tail(s: seq<byte>, k: nat, lo: byte, hi: byte) {
    k < |s| && lo <= s[k] <= hi
  }

  /** The first byte of s is in first..last and its second in lo..hi. */
  predicate Lead(s: seq<byte>, first: byte, last: byte, lo: byte, hi: byte) {
    Tail(s, 0, first, last) && Tail(s, 1, lo, hi)
  }

  predicate LeadOfThree(s: seq<byte>) {
    || Lead(s, 0xE0, 0xE0, 0xA0, 0xBF)
    || Lead(s, 0xE1, 0xEC, 0x80, 0xBF)
    || Lead(s, 0xED, 0xED, 0x80, 0x9F)
    || Lead(s, 0xEE, 0xEF, 0x80, 0xBF)
  }

  predicate LeadOfFour(s: seq<byte>) {
    || Lead(s, 0xF0, 0xF0, 0x90, 0xBF)
    || Lead(s, 0xF1, 0xF3, 0x80, 0xBF)
    || Lead(s, 0xF4, 0xF4, 0x80, 0x8F)
  }

  /** The length of the well-formed character s starts with, or 0 when it starts with none. */
  function FirstLen(s: seq<byte>): (n: nat)
    ensures n <= |s| && n <= 4
    ensures n > 0 ==> RuneStart(s[0]) && forall k :: 0 < k < n ==> !RuneStart(s[k])
  {
    if Tail(s, 0, 0x00, 0x7F) then 1
    else if Lead(s, 0xC2, 0xDF, 0x80, 0xBF) then 2
    else if LeadOfThree(s) && Tail(s, 2, 0x80, 0xBF) then 3
    else if LeadOfFour(s) && Tail(s, 2, 0x80, 0xBF) && Tail(s, 3, 0x80, 0xBF) then 4
    else 0
  }

  predicate ValidUtf8(s: seq<byte>) {
    s == [] || (FirstLen(s) > 0 && ValidUtf8(s[FirstLen(s)..]))
  }

  /** The length of the white space character s starts with, or 0 when it starts with none. */
  function SpaceLen(s: seq<byte>): (n: nat)
    ensures n <= |s| && n <= 3
    ensures n > 0 ==> FirstLen(s) == n
  {
    if s == [] then 0
    else if 0x09 <= s[0] <= 0x0D || s[0] == 0x20 then 1
    else if s[0] == 0xC2 && (Tail(s, 1, 0x85, 0x85) || Tail(s, 1, 0xA0, 0xA0)) then 2
    else if s[0] == 0xE1 && Tail(s, 1, 0x9A, 0x9A) && Tail(s, 2, 0x80, 0x80) then 3
    else if s[0] == 0xE2 && Tail(s, 1, 0x80, 0x80)
            && (Tail(s, 2, 0x80, 0x8A) || Tail(s, 2, 0xA8, 0xA9) || Tail(s, 2, 0xAF, 0xAF)) then 3
    else if s[0] == 0xE2 && Tail(s, 1, 0x81, 0x81) && Tail(s, 2, 0x9F, 0x9F) then 3
    else if s[0] == 0xE3 && Tail(s, 1, 0x80, 0x80) && Tail(s, 2, 0x80, 0x80) then 3
    else 0
  }

  function TrimLeft(s: seq<byte>): (r: seq<byte>)
    ensures |r| <= |s| && r == s[|s| - |r|..]
  {
    if SpaceLen(s) == 0 then s else TrimLeft(s[SpaceLen(s)..])
  }

  /** Whether s ends with a white space character of n bytes. */
  predicate SpaceEnd(s: seq<byte>, n: nat) {
    0 < n <= |s| && SpaceLen(s[|s| - n..]) == n
  }

  function TrimRight(s: seq<byte>): (r: seq<byte>)
    ensures r <= s
  {
    if SpaceEnd(s, 1) then TrimRight(s[..|s| - 1])
    else if SpaceEnd(s, 2) then TrimRight(s[..|s| - 2])
    else if SpaceEnd(s, 3) then TrimRight(s[..|s| - 3])
    else s
  }

  function TrimSpace(s: seq<byte>): seq<byte> {
    TrimRight(TrimLeft(s))
  }

  /** The last rune boundary of s at or before cut. */
  function CutPoint(s: seq<byte>, cut: nat): (c: nat)
    requires cut < |s|
    ensures c <= cut && (c == 0 || RuneStart(s[c]))
    ensures forall k :: c < k <= cut ==> !RuneStart(s[k])
  {
    if cut == 0 || RuneStart(s[cut]) then cut else CutPoint(s, cut - 1)
  }

  /** What is kept of the text out of a run that ended with exit. */
  function Kept(exit: Option<int>, out: seq<byte>): seq<byte> {
    if Known(exit) then []
    else
      var text := TrimSpace(out);
      if |text| <= MAX_OUTPUT then text else text[..CutPoint(text, MAX_OUTPUT)]
  }

  /** The loop that moves the cut back to a rune boundary; it ends on arbitrary bytes. */
  method OutputOf(exit: Option<int>, out: seq<byte>) returns (kept: seq<byte>)
    ensures kept == Kept(exit, out)
  {
    if Known(exit) {
      return [];
    }
    var text := TrimSpace(out);
    if |text| <= MAX_OUTPUT {
      return text;
    }
    var cut := MAX_OUTPUT;
    while cut > 0 && !RuneStart(text[cut])
      invariant 0 <= cut <= MAX_OUTPUT
      invariant CutPoint(text, cut) == CutPoint(text, MAX_OUTPUT)
    {
      cut := cut - 1;
    }
    kept := text[..cut];
  }

  // ----- what is kept -----

  lemma {:induction false} TrimLeftStart(s: seq<byte>)
    ensures SpaceLen(TrimLeft(s)) == 0
  {
    if SpaceLen(s) != 0 {
      TrimLeftStart(s[SpaceLen(s)..]);
    }
  }

  lemma {:induction false} TrimRightEnd(s: seq<byte>, n: nat)
    requires n <= 3
    ensures !SpaceEnd(TrimRight(s), n)
    decreases |s|
  {
    var m := if SpaceEnd(s, 1) then 1 else if SpaceEnd(s, 2) then 2 else if SpaceEnd(s, 3) then 3 else 0;
    if m > 0 {
      TrimRightEnd(s[..|s| - m], n);
    }
  }

  lemma SpaceOfPrefix(p: seq<byte>, s: seq<byte>)
    requires p <= s
    ensures SpaceLen(p) == 0 || SpaceLen(p) == SpaceLen(s)
  {
    assert forall k :: 0 <= k < |p| ==> p[k] == s[k];
  }

  /** The trimmed text neither starts nor ends with white space. */
  lemma TrimSpaceEnds(s: seq<byte>, n: nat)
    ensures SpaceLen(TrimSpace(s)) == 0
    ensures !SpaceEnd(TrimSpace(s), n)
  {
    TrimLeftStart(s);
    SpaceOfPrefix(TrimSpace(s), TrimLeft(s));
    TrimRightEnd(TrimLeft(s), if n <= 3 then n else 0);
  }

  /** Well-formed text cut before the first byte of a character is well-formed on both sides. */
  lemma {:induction false} CutAtRuneStart(s: seq<byte>, k: nat)
    requires ValidUtf8(s) && k <= |s|
    requires k < |s| ==> RuneStart(s[k])
    ensures ValidUtf8(s[..k]) && ValidUtf8(s[k..])
    decreases |s|
  {
    var n := FirstLen(s);
    if k == 0 {
      assert s[0..] == s;
    } else {
      CutAtRuneStart(s[n..], k - n);
      assert s[..k][n..] == s[n..][..k - n];
      assert s[n..][k - n..] == s[k..];
      assert forall i :: 0 <= i < n ==> s[..k][i] == s[i];
      assert FirstLen(s[..k]) == n;
    }
  }

  lemma {:induction false} TrimLeftValid(s: seq<byte>)
    requires ValidUtf8(s)
    ensures ValidUtf8(TrimLeft(s))
  {
    if SpaceLen(s) != 0 {
      TrimLeftValid(s[SpaceLen(s)..]);
    }
  }

  lemma {:induction false} TrimRightValid(s: seq<byte>)
    requires ValidUtf8(s)
    ensures ValidUtf8(TrimRight(s))
    decreases |s|
  {
    var n := if SpaceEnd(s, 1) then 1 else if SpaceEnd(s, 2) then 2 else if SpaceEnd(s, 3) then 3 else 0;
    if n > 0 {
      CutAtRuneStart(s, |s| - n);
      TrimRightValid(s[..|s| - n]);
    }
  }

  /** Well-formed text has a rune boundary in every four consecutive bytes. */
  lemma {:induction false} BoundaryNearby(s: seq<byte>, k: nat)
    requires ValidUtf8(s) && k < |s|
    ensures exists b :: 0 <= b <= k && k < b + 4 && RuneStart(s[b])
    decreases |s|
  {
    var n := FirstLen(s);
    if k < n {
      assert RuneStart(s[0]);
    } else {
      BoundaryNearby(s[n..], k - n);
      var b :| 0 <= b <= k - n && k - n < b + 4 && RuneStart(s[n..][b]);
      assert RuneStart(s[b + n]);
    }
  }

  /** Whatever the bytes, the kept output is a prefix of the trimmed text, at most MAX_OUTPUT long, and empty for a verdict. */
  lemma KeptIsBounded(exit: Option<int>, out: seq<byte>)
    ensures |Kept(exit, out)| <= MAX_OUTPUT
    ensures Kept(exit, out) <= TrimSpace(out)
    ensures Known(exit) ==> Kept(exit, out) == []
    ensures !Known(exit) && |TrimSpace(out)| <= MAX_OUTPUT ==> Kept(exit, out) == TrimSpace(out)
  {
  }

  /** On well-formed text the kept output is well-formed, and a cut loses at most three bytes of the bound. */
  lemma KeptIsValid(exit: Option<int>, out: seq<byte>)
    requires ValidUtf8(out)
    ensures ValidUtf8(Kept(exit, out)) && ValidUtf8(TrimSpace(out))
    ensures !Known(exit) && |TrimSpace(out)| > MAX_OUTPUT ==> |Kept(exit, out)| >= MAX_OUTPUT - 3
  {
    TrimLeftValid(out);
    TrimRightValid(TrimLeft(out));
    var text := TrimSpace(out);
    if !Known(exit) && |text| > MAX_OUTPUT {
      var c := CutPoint(text, MAX_OUTPUT);
      BoundaryNearby(text, MAX_OUTPUT);
      CutAtRuneStart(text, c);
    }
  }

  // ----- the trimmed text -----

  /** The code point of a character of one to four bytes. */
  function RuneOf(c: seq<byte>): int
    requires 1 <= |c| <= 4
  {
    if |c| == 1 then c[0] as int
    else if |c| == 2 then (c[0] as int - 0xC0) * 64 + (c[1] as int - 0x80)
    else if |c| == 3 then (c[0] as int - 0xE0) * 4096 + (c[1] as int - 0x80) * 64 + (c[2] as int - 0x80)
    else (c[0] as int - 0xF0) * 262144 + (c[1] as int - 0x80) * 4096 + (c[2] as int - 0x80) * 64 + (c[3] as int - 0x80)
  }

  predicate Continues(c: seq<byte>) {
    forall k :: 0 < k < |c| ==> 0x80 <= c[k] <= 0xBF
  }

  /** c has the form of one character and its code point needs that many bytes: no overlong form, surrogate, or code point past 0x10FFFF. */
  predicate WellFormed(c: seq<byte>) {
    && Continues(c)
    && match |c|
       case 1 => c[0] < 0x80
       case 2 => 0xC0 <= c[0] < 0xE0 && RuneOf(c) >= 0x80
       case 3 => 0xE0 <= c[0] < 0xF0 && RuneOf(c) >= 0x800 && !(0xD800 <= RuneOf(c) <= 0xDFFF)
       case 4 => 0xF0 <= c[0] < 0xF8 && 0x10000 <= RuneOf(c) <= 0x10FFFF
       case _ => false
  }

  /** Well-formed text starts with exactly the characters of section 3 of RFC 3629. */
  lemma FirstLenExactly(s: seq<byte>, n: nat)
    requires 1 <= n <= 4 && n <= |s|
    ensures FirstLen(s) == n <==> WellFormed(s[..n])
  {
    var c := s[..n];
    if n == 1 {
    } else if n == 2 {
      assert Continues(c) <==> 0x80 <= c[1] <= 0xBF;
    } else if n == 3 {
      assert Continues(c) <==> 0x80 <= c[1] <= 0xBF && 0x80 <= c[2] <= 0xBF;
    } else {
      assert Continues(c) <==> 0x80 <= c[1] <= 0xBF && 0x80 <= c[2] <= 0xBF && 0x80 <= c[3] <= 0xBF;
    }
  }

  /** The code points with Unicode's White_Space property. */
  predicate WhiteSpace(rune: int) {
    || 0x09 <= rune <= 0x0D || rune == 0x20 || rune == 0x85 || rune == 0xA0 || rune == 0x1680
    || 0x2000 <= rune <= 0x200A || rune == 0x2028 || rune == 0x2029 || rune == 0x202F || rune == 0x205F || rune == 0x3000
  }

  lemma SpaceExactly(s: seq<byte>)
    ensures SpaceLen(s) > 0 <==> 1 <= FirstLen(s) <= 3 && WhiteSpace(RuneOf(s[..FirstLen(s)]))
  {
  }

  /** A sequence of white space characters. */
  predicate Spaces(s: seq<byte>) {
    s == [] || (SpaceLen(s) > 0 && Spaces(s[SpaceLen(s)..]))
  }

  lemma SpaceOfLongerPrefix(p: seq<byte>, s: seq<byte>)
    requires p <= s && SpaceLen(s) <= |p|
    ensures SpaceLen(s) > 0 ==> SpaceLen(p) == SpaceLen(s)
  {
  }

  lemma TakesFirst(s: seq<byte>, n: nat, k: nat)
    requires 0 < n <= k <= |s| && SpaceLen(s) == n && Spaces(s[n..][..k - n])
    ensures Spaces(s[..k])
  {
    SpaceOfLongerPrefix(s[..k], s);
    assert s[..k][n..] == s[n..][..k - n];
  }

  lemma {:induction false} TrimLeftTakes(s: seq<byte>)
    ensures Spaces(s[..|s| - |TrimLeft(s)|])
  {
    var n := SpaceLen(s);
    if n > 0 {
      TrimLeftTakes(s[n..]);
      TakesFirst(s, n, |s| - |TrimLeft(s[n..])|);
    }
  }

  lemma SpacesFrom(s: seq<byte>, n: nat, rest: seq<byte>)
    requires 0 < n <= |s| && SpaceLen(s) == n && s[n..] == rest && Spaces(rest)
    ensures Spaces(s)
  {
  }

  lemma {:induction false} SpacesSnoc(a: seq<byte>, c: seq<byte>)
    requires Spaces(a) && c != [] && SpaceLen(c) == |c|
    ensures Spaces(a + c)
    decreases |a|
  {
    if a == [] {
      assert a + c == c && c[|c|..] == [];
    } else {
      var n := SpaceLen(a);
      SpacesSnoc(a[n..], c);
      SpaceOfPrefix(a, a + c);
      SpacesFrom(a + c, n, a[n..] + c);
    }
  }

  lemma TakesOneMore(s: seq<byte>, n: nat, r: nat)
    requires 0 < n <= |s| && SpaceLen(s[|s| - n..]) == n && r <= |s| - n && Spaces(s[..|s| - n][r..])
    ensures Spaces(s[r..])
  {
    var rest, c := s[..|s| - n], s[|s| - n..];
    SpacesSnoc(rest[r..], c);
    assert s[r..] == rest[r..] + c;
  }

  /** The end that is trimmed first: a white space character, or nothing. */
  function LastSpace(s: seq<byte>): (n: nat)
    ensures n <= |s| && n <= 3
    ensures n > 0 ==> SpaceLen(s[|s| - n..]) == n
    ensures TrimRight(s) == if n > 0 then TrimRight(s[..|s| - n]) else s
  {
    if SpaceEnd(s, 1) then 1 else if SpaceEnd(s, 2) then 2 else if SpaceEnd(s, 3) then 3 else 0
  }

  lemma {:induction false} TrimRightTakes(s: seq<byte>)
    ensures Spaces(s[|TrimRight(s)|..])
    decreases |s|
  {
    var n := LastSpace(s);
    if n > 0 {
      TrimRightTakes(s[..|s| - n]);
      TakesOneMore(s, n, |TrimRight(s)|);
    }
  }

  /** text has no white space character at either end. */
  ghost predicate Bare(text: seq<byte>) {
    SpaceLen(text) == 0 && forall n :: !SpaceEnd(text, n)
  }

  lemma TrimSpaceIsBare(s: seq<byte>)
    ensures Bare(TrimSpace(s))
  {
    forall n: nat ensures !SpaceEnd(TrimSpace(s), n) {
      TrimSpaceEnds(s, n);
    }
    TrimSpaceEnds(s, 1);
  }

  /** out is text between white space. */
  predicate Between(out: seq<byte>, lead: seq<byte>, text: seq<byte>, trail: seq<byte>) {
    out == lead + text + trail && Spaces(lead) && Spaces(trail)
  }

  lemma PutTogether(s: seq<byte>, left: seq<byte>, text: seq<byte>) returns (lead: seq<byte>, trail: seq<byte>)
    requires |left| <= |s| && left == s[|s| - |left|..] && text <= left
    requires Spaces(s[..|s| - |left|]) && Spaces(left[|text|..])
    ensures Between(s, lead, text, trail)
  {
    lead, trail := s[..|s| - |left|], left[|text|..];
    assert s == lead + left && left == text + trail;
  }

  /** Trimming takes white space off both ends, and nothing else. */
  lemma TrimSpaceExactly(s: seq<byte>) returns (lead: seq<byte>, trail: seq<byte>)
    ensures Between(s, lead, TrimSpace(s), trail)
  {
    TrimLeftTakes(s);
    TrimRightTakes(TrimLeft(s));
    lead, trail := PutTogether(s, TrimLeft(s), TrimSpace(s));
  }

  /** c is the last rune start of text at or before byte 512. */
  predicate LastBoundary(text: seq<byte>, c: nat) {
    c <= 512 < |text| && (c == 0 || RuneStart(text[c])) && forall k :: c < k <= 512 ==> !RuneStart(text[k])
  }

  /**
    What is kept of out: nothing for a verdict; else the text between the white space at its ends, all of it
    when it has at most 512 bytes, or up to its last rune start at or before byte 512.
   */
  lemma KeptExactly(exit: Option<int>, out: seq<byte>)
    ensures exit == Some(0) || exit == Some(1) ==> Kept(exit, out) == []
    ensures exit != Some(0) && exit != Some(1) ==>
              exists lead, text, trail ::
                && Between(out, lead, text, trail) && Bare(text)
                && (if |text| <= 512 then Kept(exit, out) == text
                    else exists c :: 0 <= c <= 512 && LastBoundary(text, c) && Kept(exit, out) == text[..c])
  {
    var lead, trail := TrimSpaceExactly(out);
    TrimSpaceIsBare(out);
    var text := TrimSpace(out);
    if |text| > 512 {
      assert LastBoundary(text, CutPoint(text, 512));
    }
  }
}
