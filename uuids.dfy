/**
 * The UUID parse that `DataRecordRequestSerializer.validate_datalogger` relies on:
 * Python's `str(UUID(value))`.  `UUID(hex)` deletes every "urn:" and "uuid:",
 * strips leading and trailing braces, deletes every hyphen and then demands
 * exactly 32 hexadecimal digits; `str()` prints them in lower case, grouped
 * 8-4-4-4-12.
 */
module Uuids {
  import opened Wrappers

  predicate IsHexDigit(c: char) {
    '0' <= c <= '9' || 'a' <= c <= 'f' || 'A' <= c <= 'F'
  }

  predicate IsLowerHexDigit(c: char) {
    '0' <= c <= '9' || 'a' <= c <= 'f'
  }

  function ToLower(c: char): (r: char)
    ensures IsHexDigit(c) ==> IsLowerHexDigit(r)
    ensures IsLowerHexDigit(c) ==> r == c
  {
    if 'A' <= c <= 'F' then (c as int + 32) as char else c
  }

  function LowerAll(s: string): (r: string)
    ensures |r| == |s|
    ensures forall i | 0 <= i < |s| :: r[i] == ToLower(s[i])
  {
    seq(|s|, i requires 0 <= i < |s| => ToLower(s[i]))
  }

  /** `s.replace(pat, "")`: every non-overlapping occurrence, scanning from the left, is deleted. */
  function RemoveAll(s: string, pat: string): string
    requires |pat| > 0
    decreases |s|
  {
    if |s| < |pat| then s
    else if s[..|pat|] == pat then RemoveAll(s[|pat|..], pat)
    else [s[0]] + RemoveAll(s[1..], pat)
  }

  predicate IsBrace(c: char) { c == '{' || c == '}' }

  function StripLeadingBraces(s: string): string
    decreases |s|
  {
    if |s| > 0 && IsBrace(s[0]) then StripLeadingBraces(s[1..]) else s
  }

  function StripTrailingBraces(s: string): string
    decreases |s|
  {
    if |s| > 0 && IsBrace(s[|s| - 1]) then StripTrailingBraces(s[..|s| - 1]) else s
  }

  /** The candidate digits: `hex.replace('urn:', '').replace('uuid:', '').strip('{}').replace('-', '')`. */
  function Digits(s: string): string {
    RemoveAll(StripTrailingBraces(StripLeadingBraces(RemoveAll(RemoveAll(s, "urn:"), "uuid:"))), "-")
  }

  /** `str(UUID)`: the 32 digits in five hyphen-separated groups. */
  function Format(h: string): string
    requires |h| == 32
  {
    h[0..8] + "-" + h[8..12] + "-" + h[12..16] + "-" + h[16..20] + "-" + h[20..32]
  }

  predicate IsHyphenPosition(i: int) {
    i == 8 || i == 13 || i == 18 || i == 23
  }

  /** The canonical form: 36 characters, hyphens at 8, 13, 18, 23, lower-case hex elsewhere. */
  predicate IsCanonical(s: string) {
    && |s| == 36
    && forall i | 0 <= i < 36 :: if IsHyphenPosition(i) then s[i] == '-' else IsLowerHexDigit(s[i])
  }

  predicate AllHex(h: string) {
    forall i | 0 <= i < |h| :: IsHexDigit(h[i])
  }

  /** `str(UUID(s))`, or None where Python raises ValueError. */
  function ParseUuid(s: string): (r: Option<string>)
    ensures r.Some? ==> IsCanonical(r.value)
    ensures r.Some? <==> |Digits(s)| == 32 && AllHex(Digits(s))
    ensures r.Some? ==> |r.value| == 36 && Ungroup(r.value) == LowerAll(Digits(s))
  {
    var h := Digits(s);
    if |h| == 32 && AllHex(h) then
      FormatIsCanonical(LowerAll(h));
      UngroupOfFormat(LowerAll(h));
      Some(Format(LowerAll(h)))
    else None
  }

  /** Leaving out the hyphens of a formatted id gives back its 32 digits. */
  lemma UngroupOfFormat(h: string)
    requires |h| == 32
    ensures |Format(h)| == 36 && Ungroup(Format(h)) == h
  {
    var f := Format(h);
    assert f[0..8] == h[0..8] && f[9..13] == h[8..12] && f[14..18] == h[12..16];
    assert f[19..23] == h[16..20] && f[24..36] == h[20..32];
    assert h == h[0..8] + (h[8..12] + (h[12..16] + (h[16..20] + h[20..32])));
  }

  /** Texts with the same digits, up to case, name the same id; texts with different digits name different ids. */
  lemma SameDigitsSameId(s: string, t: string)
    requires ParseUuid(s).Some? && ParseUuid(t).Some?
    ensures ParseUuid(s) == ParseUuid(t) <==> LowerAll(Digits(s)) == LowerAll(Digits(t))
  {
  }

  lemma FormatIsCanonical(h: string)
    requires |h| == 32 && forall i | 0 <= i < 32 :: IsLowerHexDigit(h[i])
    ensures IsCanonical(Format(h))
  {
    var f := Format(h);
    assert |f| == 36;
    forall i | 0 <= i < 36
      ensures if IsHyphenPosition(i) then f[i] == '-' else IsLowerHexDigit(f[i])
    {
      if i < 8 { assert f[i] == h[i]; }
      else if 8 < i < 13 { assert f[i] == h[i - 1]; }
      else if 13 < i < 18 { assert f[i] == h[i - 2]; }
      else if 18 < i < 23 { assert f[i] == h[i - 3]; }
      else if 23 < i { assert f[i] == h[i - 4]; }
    }
  }

  /** Deleting a pattern whose first character never occurs changes nothing. */
  lemma {:induction false} RemoveAbsent(s: string, pat: string)
    requires |pat| > 0
    requires forall i | 0 <= i < |s| :: s[i] != pat[0]
    ensures RemoveAll(s, pat) == s
    decreases |s|
  {
    if |s| >= |pat| {
      assert s[..|pat|] != pat by { assert s[..|pat|][0] == s[0]; }
      RemoveAbsent(s[1..], pat);
      assert [s[0]] + s[1..] == s;
    }
  }

  /** Deleting one character distributes over concatenation. */
  lemma {:induction false} RemoveCharConcat(a: string, b: string, c: char)
    ensures RemoveAll(a + b, [c]) == RemoveAll(a, [c]) + RemoveAll(b, [c])
    decreases |a|
  {
    if a == [] {
      assert a + b == b;
    } else {
      assert (a + b)[1..] == a[1..] + b;
      assert (a + b)[..1] == a[..1];
      RemoveCharConcat(a[1..], b, c);
    }
  }

  lemma CanonicalHasNoBraces(s: string)
    requires IsCanonical(s)
    ensures StripTrailingBraces(StripLeadingBraces(s)) == s
  {
    assert !IsBrace(s[0]) && !IsBrace(s[35]);
  }

  predicate NoHyphen(g: string) {
    forall i | 0 <= i < |g| :: g[i] != '-'
  }

  /** Deleting the hyphen that joins a hyphen-free group to the rest. */
  lemma JoinRemove(a: string, b: string)
    requires NoHyphen(a)
    ensures RemoveAll(a + "-" + b, "-") == a + RemoveAll(b, "-")
  {
    assert a + "-" + b == a + ("-" + b);
    RemoveCharConcat(a, "-" + b, '-');
    RemoveCharConcat("-", b, '-');
    RemoveAbsent(a, "-");
    assert RemoveAll("-", "-") == "";
  }

  /** The 32 digits of a canonical string, its hyphens left out. */
  function Ungroup(s: string): (h: string)
    requires |s| == 36
    ensures |h| == 32
  {
    s[0..8] + (s[9..13] + (s[14..18] + (s[19..23] + s[24..36])))
  }

  lemma UngroupFormat(s: string)
    requires IsCanonical(s)
    ensures Format(Ungroup(s)) == s
    ensures forall i | 0 <= i < 32 :: IsLowerHexDigit(Ungroup(s)[i])
  {
    var h := Ungroup(s);
    assert h[0..8] == s[0..8] && h[8..12] == s[9..13] && h[12..16] == s[14..18];
    assert h[16..20] == s[19..23] && h[20..32] == s[24..36];
    assert s == s[0..8] + "-" + s[9..13] + "-" + s[14..18] + "-" + s[19..23] + "-" + s[24..36];
    forall i | 0 <= i < 32 ensures IsLowerHexDigit(h[i]) {
      if i < 8 { assert h[i] == s[i]; }
      else if i < 12 { assert h[i] == s[i + 1]; }
      else if i < 16 { assert h[i] == s[i + 2]; }
      else if i < 20 { assert h[i] == s[i + 3]; }
      else { assert h[i] == s[i + 4]; }
    }
  }

  /** Hyphens exactly at the canonical positions. */
  predicate IsGrouped(s: string) {
    && |s| == 36
    && forall i | 0 <= i < 36 :: (s[i] == '-' <==> IsHyphenPosition(i))
  }

  lemma RemoveHyphensOfGrouped(s: string)
    requires IsGrouped(s)
    ensures RemoveAll(s, "-") == Ungroup(s)
  {
    var g1, g2, g3, g4, g5 := s[0..8], s[9..13], s[14..18], s[19..23], s[24..36];
    assert s == g1 + "-" + (g2 + "-" + (g3 + "-" + (g4 + "-" + g5)));
    assert NoHyphen(g1) && NoHyphen(g2) && NoHyphen(g3) && NoHyphen(g4) && NoHyphen(g5) by {
      assert forall i | 0 <= i < 8 :: g1[i] == s[i];
      assert forall i | 0 <= i < 4 :: g2[i] == s[i + 9] && g3[i] == s[i + 14] && g4[i] == s[i + 19];
      assert forall i | 0 <= i < 12 :: g5[i] == s[i + 24];
    }
    JoinRemove(g1, g2 + "-" + (g3 + "-" + (g4 + "-" + g5)));
    JoinRemove(g2, g3 + "-" + (g4 + "-" + g5));
    JoinRemove(g3, g4 + "-" + g5);
    JoinRemove(g4, g5);
    RemoveAbsent(g5, "-");
  }

  lemma RemoveHyphensOfCanonical(s: string)
    requires IsCanonical(s)
    ensures RemoveAll(s, "-") == Ungroup(s)
  {
    assert IsGrouped(s);
    RemoveHyphensOfGrouped(s);
  }

  /** Re-parsing a canonical string returns it unchanged. */
  lemma CanonicalRoundTrip(s: string)
    requires IsCanonical(s)
    ensures ParseUuid(s) == Some(s)
  {
    forall i | 0 <= i < |s| ensures s[i] != 'u' { }
    RemoveAbsent(s, "urn:");
    RemoveAbsent(s, "uuid:");
    CanonicalHasNoBraces(s);
    RemoveHyphensOfCanonical(s);
    UngroupFormat(s);
    var h := Ungroup(s);
    assert Digits(s) == h;
    assert LowerAll(h) == h;
  }

  /** Validating the output of a successful validation gives the same output (idempotence). */
  lemma ParseIdempotent(s: string)
    requires ParseUuid(s).Some?
    ensures ParseUuid(ParseUuid(s).value) == ParseUuid(s)
  {
    CanonicalRoundTrip(ParseUuid(s).value);
  }

  /** Hex digits, of either case, between hyphens at the canonical positions. */
  predicate IsGroupedHex(u: string) {
    IsGrouped(u) && forall i | 0 <= i < 36 :: !IsHyphenPosition(i) ==> IsHexDigit(u[i])
  }

  /**
   * An id in the 8-4-4-4-12 layout, in upper or mixed case, with or without
   * surrounding braces, names the UUID of its lower-case form.
   */
  lemma GroupedIdParses(u: string)
    requires IsGroupedHex(u)
    ensures ParseUuid(u) == Some(LowerAll(u))
    ensures ParseUuid("{" + u + "}") == Some(LowerAll(u))
  {
    GroupedDigits(u);
    LowerUngroup(u);
    UngroupFormat(LowerAll(u));
  }

  /** The digits of a grouped id, braced or not, are the id without its hyphens. */
  lemma GroupedDigits(u: string)
    requires IsGroupedHex(u)
    ensures Digits(u) == Ungroup(u) && Digits("{" + u + "}") == Ungroup(u)
  {
    NoMarkers(u);
    assert StripLeadingBraces(u) == u && StripTrailingBraces(u) == u;
    BracesStripped(u);
    RemoveHyphensOfGrouped(u);
  }

  /** A grouped id holds no 'u', so neither marker occurs in it, braced or not. */
  lemma NoMarkers(u: string)
    requires IsGroupedHex(u)
    ensures RemoveAll(RemoveAll(u, "urn:"), "uuid:") == u
    ensures RemoveAll(RemoveAll("{" + u + "}", "urn:"), "uuid:") == "{" + u + "}"
  {
    var b := "{" + u + "}";
    assert forall i | 0 <= i < |u| :: u[i] != 'u';
    assert forall i | 0 <= i < |b| :: b[i] != 'u' by {
      forall i | 0 <= i < |b| ensures b[i] != 'u' {
        if 0 < i < |b| - 1 { assert b[i] == u[i - 1]; }
      }
    }
    RemoveAbsent(u, "urn:");
    RemoveAbsent(u, "uuid:");
    RemoveAbsent(b, "urn:");
    RemoveAbsent(b, "uuid:");
  }

  /** `strip('{}')` of a braced id gives the id back. */
  lemma BracesStripped(u: string)
    requires |u| > 0 && !IsBrace(u[0]) && !IsBrace(u[|u| - 1])
    ensures StripTrailingBraces(StripLeadingBraces("{" + u + "}")) == u
  {
    var b := "{" + u + "}";
    assert StripLeadingBraces(b) == u + "}" by { assert b[1..] == u + "}"; }
    assert StripTrailingBraces(u + "}") == u by { assert (u + "}")[..|u|] == u; }
  }

  /** Lower-casing commutes with leaving out the hyphens, and a grouped id's digits are hex. */
  lemma LowerUngroup(u: string)
    requires IsGroupedHex(u)
    ensures AllHex(Ungroup(u)) && LowerAll(Ungroup(u)) == Ungroup(LowerAll(u))
    ensures IsCanonical(LowerAll(u))
  {
    var h, l := Ungroup(u), LowerAll(u);
    forall i | 0 <= i < 32 ensures IsHexDigit(h[i]) && LowerAll(h)[i] == Ungroup(l)[i] {
      var j := if i < 8 then i else if i < 12 then i + 1 else if i < 16 then i + 2 else if i < 20 then i + 3 else i + 4;
      assert h[i] == u[j] && Ungroup(l)[i] == l[j];
    }
  }

  /** The characters a parseable id may consist of: hex digits and the separators the parser drops. */
  predicate IsIdChar(c: char) {
    || IsHexDigit(c)
    || c == 'u' || c == 'r' || c == 'n' || c == ':' || c == 'i' || c == 'd'
    || c == '{' || c == '}' || c == '-'
  }

  lemma {:induction false} RemoveKeeps(s: string, pat: string, c: char)
    requires |pat| > 0
    ensures c in s && c !in pat ==> c in RemoveAll(s, pat)
    decreases |s|
  {
    if |s| >= |pat| && c in s && c !in pat {
      var i :| 0 <= i < |s| && s[i] == c;
      if s[..|pat|] == pat {
        RemoveKeeps(s[|pat|..], pat, c);
        if i >= |pat| { assert s[|pat|..][i - |pat|] == c; }
      } else {
        RemoveKeeps(s[1..], pat, c);
        if i > 0 { assert s[1..][i - 1] == c; }
      }
    }
  }

  lemma {:induction false} StripKeeps(s: string, c: char)
    ensures c in s && !IsBrace(c) ==> c in StripLeadingBraces(s) && c in StripTrailingBraces(s)
    decreases |s|
  {
    if |s| > 0 && c in s && !IsBrace(c) {
      StripKeeps(s[1..], c);
      StripKeeps(s[..|s| - 1], c);
      var i :| 0 <= i < |s| && s[i] == c;
      if i > 0 { assert s[1..][i - 1] == c; }
      if i < |s| - 1 { assert s[..|s| - 1][i] == c; }
    }
  }

  /** A text that parses holds nothing but hex digits and the separators the parser drops. */
  lemma ParsedHasOnlyIdChars(s: string)
    requires ParseUuid(s).Some?
    ensures forall i | 0 <= i < |s| :: IsIdChar(s[i])
  {
    forall i | 0 <= i < |s| ensures IsIdChar(s[i]) {
      var c := s[i];
      var a := RemoveAll(s, "urn:");
      var b := RemoveAll(a, "uuid:");
      RemoveKeeps(s, "urn:", c);
      RemoveKeeps(a, "uuid:", c);
      StripKeeps(b, c);
      StripKeeps(StripLeadingBraces(b), c);
      RemoveKeeps(StripTrailingBraces(StripLeadingBraces(b)), "-", c);
    }
  }

  /** A text holding a null character is never an id. */
  lemma NulNotAnIdChar(s: string)
    requires '\0' in s
    ensures ParseUuid(s).None?
  {
    var i :| 0 <= i < |s| && s[i] == '\0';
    assert !IsIdChar(s[i]);
    if ParseUuid(s).Some? {
      ParsedHasOnlyIdChars(s);
    }
  }

  /** An empty id is rejected. */
  lemma EmptyIdRejected()
    ensures ParseUuid("") == None
  {
    assert RemoveAll("", "urn:") == "" && RemoveAll("", "uuid:") == "" && RemoveAll("", "-") == "";
  }

  /** The integer 4, sent where a UUID is expected, arrives as "4" and is rejected. */
  lemma ShortIdRejected()
    ensures ParseUuid("4") == None
  {
    assert RemoveAll("4", "urn:") == "4";
    assert RemoveAll("4", "uuid:") == "4";
    assert RemoveAll("4", "-") == "4" by { RemoveAbsent("4", "-"); }
  }
}
