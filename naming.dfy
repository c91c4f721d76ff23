/**
 * The worker's string handling: the decimal form of an int, the hourly date identifier,
 * collection names, and turning a connected-realm reference back into a realm id.
 */
module Naming {
  import opened Types

  const Int32Min: int := -0x8000_0000
  const Int32Max: int := 0x7FFF_FFFF

  predicate IsDigit(c: char) { '0' <= c <= '9' }

  predicate AllDigits(s: string) {
    forall i :: 0 <= i < |s| ==> IsDigit(s[i])
  }

  /** No character of `s` is `c`. */
  predicate Lacks(s: string, c: char) {
    forall i :: 0 <= i < |s| ==> s[i] != c
  }

  // ---------------------------------------------------------------------------------------
  // Decimal formatting, as an int is interpolated into a string

  function DigitChar(d: nat): (c: char)
    requires d < 10
    ensures IsDigit(c)
  {
    ('0' as int + d) as char
  }

  /** The shortest decimal form of `n`: digits only, no leading zero except for 0 itself. */
  function NatToString(n: nat): (s: string)
    ensures |s| > 0 && IsDigit(s[0])
    ensures s[0] == '0' ==> n == 0
  {
    if n < 10 then [DigitChar(n)] else NatToString(n / 10) + [DigitChar(n % 10)]
  }

  /** The number a string of decimal digits stands for. */
  function DigitsValue(s: string): nat
    requires AllDigits(s)
  {
    if s == [] then 0 else DigitsValue(s[..|s| - 1]) * 10 + (s[|s| - 1] as int - '0' as int)
  }

  /** The decimal form of an int: a minus sign for negative values, then the digits. */
  function IntToString(n: int): (s: string)
    ensures |s| > 0
    ensures s[0] == '-' <==> n < 0
  {
    if n < 0 then "-" + NatToString(-n) else NatToString(n)
  }

  /** The decimal form of a nat is made of digits only. */
  lemma {:induction false} NatToStringDigits(n: nat)
    ensures AllDigits(NatToString(n))
  {
    if n >= 10 {
      NatToStringDigits(n / 10);
      var s, t := NatToString(n), NatToString(n / 10);
      assert forall i :: 0 <= i < |t| ==> s[i] == t[i];
    }
  }

  /** After its optional minus sign, the decimal form of an int is made of digits only. */
  lemma {:induction false} IntToStringDigits(n: int)
    ensures AllDigits(if n < 0 then IntToString(n)[1..] else IntToString(n))
  {
    if n < 0 {
      NatToStringDigits(-n);
      assert IntToString(n)[1..] == NatToString(-n);
    } else {
      NatToStringDigits(n);
    }
  }

  /** Reading back the decimal form of a nat gives the nat. */
  lemma {:induction false} NatToStringRoundTrip(n: nat)
    ensures AllDigits(NatToString(n)) && DigitsValue(NatToString(n)) == n
  {
    NatToStringDigits(n);
    if n >= 10 {
      NatToStringRoundTrip(n / 10);
      var s := NatToString(n);
      assert s[..|s| - 1] == NatToString(n / 10);
    }
  }

  /** Distinct ints have distinct decimal forms. */
  lemma {:induction false} IntToStringInjective(a: int, b: int)
    requires IntToString(a) == IntToString(b)
    ensures a == b
  {
    var s := IntToString(a);
    if a < 0 {
      assert b < 0;
      assert NatToString(-a) == s[1..] == NatToString(-b);
      NatToStringRoundTrip(-a);
      NatToStringRoundTrip(-b);
    } else {
      assert b >= 0;
      NatToStringRoundTrip(a);
      NatToStringRoundTrip(b);
    }
  }

  // ---------------------------------------------------------------------------------------
  // Date identifier and collection names

  /** Digits and dashes only: no sign, no space, no other separator. */
  predicate DigitsAndDashes(s: string) {
    forall i :: 0 <= i < |s| ==> IsDigit(s[i]) || s[i] == '-'
  }

  /** Joining two such strings with a dash keeps to digits and dashes. */
  lemma {:induction false} JoinKeepsDigitsAndDashes(a: string, b: string)
    requires DigitsAndDashes(a) && DigitsAndDashes(b)
    ensures DigitsAndDashes(a + "-" + b)
  {
    var s := a + "-" + b;
    forall i | 0 <= i < |s| ensures IsDigit(s[i]) || s[i] == '-' {
      if i > |a| { assert s[i] == b[i - |a| - 1]; }
    }
  }

  /** The decimal form of a nat keeps to digits and dashes. */
  lemma {:induction false} NatFormDigitsAndDashes(n: nat)
    ensures DigitsAndDashes(IntToString(n))
  {
    IntToStringDigits(n);
  }

  /** Year, month, day and hour joined by dashes, none zero-padded. */
  function DateIdentifier(t: Time): (d: string)
    ensures DigitsAndDashes(d)
    ensures |d| >= 7
  {
    NatFormDigitsAndDashes(t.year);
    NatFormDigitsAndDashes(t.month);
    NatFormDigitsAndDashes(t.day);
    NatFormDigitsAndDashes(t.hour);
    JoinKeepsDigitsAndDashes(IntToString(t.year), IntToString(t.month));
    JoinKeepsDigitsAndDashes(IntToString(t.year) + "-" + IntToString(t.month), IntToString(t.day));
    JoinKeepsDigitsAndDashes(IntToString(t.year) + "-" + IntToString(t.month) + "-" + IntToString(t.day), IntToString(t.hour));
    IntToString(t.year) + "-" + IntToString(t.month) + "-" + IntToString(t.day) + "-" + IntToString(t.hour)
  }

  /**
   * The collection one realm's auctions are stored in for one hour: after the date
   * identifier, a dash and the region type comes the realm id, which reads back as itself.
   */
  function CollectionName(dateIdentifier: string, regionType: string, realmId: int): (name: string)
    ensures |name| > |dateIdentifier| + 1 + |regionType|
    ensures name[..|dateIdentifier| + 1 + |regionType|] == dateIdentifier + "-" + regionType
    ensures Int32Min <= realmId <= Int32Max ==>
      ParseInt32(name[|dateIdentifier| + 1 + |regionType|..]) == Parsed(realmId)
  {
    var head := dateIdentifier + "-" + regionType;
    assert Int32Min <= realmId <= Int32Max ==> ParseInt32(IntToString(realmId)) == Parsed(realmId) by {
      if Int32Min <= realmId <= Int32Max { ParseIntToString(realmId); }
    }
    assert (head + IntToString(realmId))[|head|..] == IntToString(realmId);
    head + IntToString(realmId)
  }

  /** Two strings cut at their first dash agree on both sides. */
  lemma {:induction false} SplitAtDash(a: string, b: string, c: string, d: string)
    requires Lacks(a, '-') && Lacks(c, '-')
    requires a + ("-" + b) == c + ("-" + d)
    ensures a == c && b == d
  {
    var s := a + ("-" + b);
    assert s[|a|] == '-';
    assert (c + ("-" + d))[|c|] == '-';
    assert |a| == |c|;
    assert a == s[..|a|] == c;
    assert b == s[|a| + 1..] == d;
  }

  lemma {:induction false} NatFormLacksDash(n: nat)
    ensures Lacks(IntToString(n), '-')
  {
    var s := IntToString(n);
    IntToStringDigits(n);
    forall i | 0 <= i < |s| ensures s[i] != '-' {
      assert IsDigit(s[i]);
    }
  }

  lemma {:induction false} GroupRight(y: string, m: string, d: string, h: string, rest: string)
    ensures y + "-" + m + "-" + d + "-" + h + "-" + rest == y + ("-" + (m + ("-" + (d + ("-" + (h + ("-" + rest)))))))
  {
  }

  /** The date identifier, and anything appended after a dash, determine year, month, day and hour. */
  lemma {:induction false} DateIdentifierSplits(t1: Time, rest1: string, t2: Time, rest2: string)
    requires DateIdentifier(t1) + "-" + rest1 == DateIdentifier(t2) + "-" + rest2
    ensures t1.year == t2.year && t1.month == t2.month && t1.day == t2.day && t1.hour == t2.hour
    ensures rest1 == rest2
  {
    var y1, m1, d1, h1 := IntToString(t1.year), IntToString(t1.month), IntToString(t1.day), IntToString(t1.hour);
    var y2, m2, d2, h2 := IntToString(t2.year), IntToString(t2.month), IntToString(t2.day), IntToString(t2.hour);
    NatFormLacksDash(t1.year); NatFormLacksDash(t1.month); NatFormLacksDash(t1.day); NatFormLacksDash(t1.hour);
    NatFormLacksDash(t2.year); NatFormLacksDash(t2.month); NatFormLacksDash(t2.day); NatFormLacksDash(t2.hour);
    var x1, x2 := h1 + ("-" + rest1), h2 + ("-" + rest2);
    var w1, w2 := d1 + ("-" + x1), d2 + ("-" + x2);
    var v1, v2 := m1 + ("-" + w1), m2 + ("-" + w2);
    GroupRight(y1, m1, d1, h1, rest1);
    GroupRight(y2, m2, d2, h2, rest2);
    SplitAtDash(y1, v1, y2, v2);
    SplitAtDash(m1, w1, m2, w2);
    SplitAtDash(d1, x1, d2, x2);
    SplitAtDash(h1, rest1, h2, rest2);
    IntToStringInjective(t1.year, t2.year);
    IntToStringInjective(t1.month, t2.month);
    IntToStringInjective(t1.day, t2.day);
    IntToStringInjective(t1.hour, t2.hour);
  }

  /** Distinct clock hours give distinct date identifiers. */
  lemma {:induction false} DateIdentifierInjective(t1: Time, t2: Time)
    requires DateIdentifier(t1) == DateIdentifier(t2)
    ensures t1.year == t2.year && t1.month == t2.month && t1.day == t2.day && t1.hour == t2.hour
  {
    DateIdentifierSplits(t1, "", t2, "");
  }

  /** Two concatenations whose first parts have the same length agree part by part. */
  lemma {:induction false} SplitAt(a: string, b: string, c: string, d: string)
    requires |a| == |c| && a + b == c + d
    ensures a == c && b == d
  {
    assert a == (a + b)[..|a|] && c == (c + d)[..|c|];
    assert b == (a + b)[|a|..] && d == (c + d)[|c|..];
  }

  lemma {:induction false} CollectionNameGrouped(dateIdentifier: string, regionType: string, realmId: int)
    ensures CollectionName(dateIdentifier, regionType, realmId) == dateIdentifier + "-" + (regionType + IntToString(realmId))
  {
    var i := IntToString(realmId);
    assert dateIdentifier + "-" + regionType + i == dateIdentifier + "-" + (regionType + i);
  }

  /** Within one date identifier, region type and realm id determine the collection. */
  lemma {:induction false} CollectionNameInjective(dateIdentifier: string, r1: Region, id1: int, r2: Region, id2: int)
    requires CollectionName(dateIdentifier, r1.RegionType(), id1) == CollectionName(dateIdentifier, r2.RegionType(), id2)
    ensures r1 == r2 && id1 == id2
  {
    var p := dateIdentifier + "-";
    var t1, t2 := r1.RegionType(), r2.RegionType();
    CollectionNameGrouped(dateIdentifier, t1, id1);
    CollectionNameGrouped(dateIdentifier, t2, id2);
    SplitAt(p, t1 + IntToString(id1), p, t2 + IntToString(id2));
    assert |t1| == 2 && |t2| == 2 by {
      match r1 case Europe => case US =>
      match r2 case Europe => case US =>
    }
    SplitAt(t1, IntToString(id1), t2, IntToString(id2));
    IntToStringInjective(id1, id2);
  }

  /** Collection names never collide across hours, regions or realms. */
  lemma {:induction false} FullNameInjective(t1: Time, r1: Region, id1: int, t2: Time, r2: Region, id2: int)
    requires CollectionName(DateIdentifier(t1), r1.RegionType(), id1) == CollectionName(DateIdentifier(t2), r2.RegionType(), id2)
    ensures t1.year == t2.year && t1.month == t2.month && t1.day == t2.day && t1.hour == t2.hour
    ensures r1 == r2 && id1 == id2
  {
    CollectionNameGrouped(DateIdentifier(t1), r1.RegionType(), id1);
    CollectionNameGrouped(DateIdentifier(t2), r2.RegionType(), id2);
    DateIdentifierSplits(t1, r1.RegionType() + IntToString(id1), t2, r2.RegionType() + IntToString(id2));
    CollectionNameInjective(DateIdentifier(t1), r1, id1, r2, id2);
  }

  // ---------------------------------------------------------------------------------------
  // Ordinal replace-all

  /** Does `s` begin with `pat`? */
  predicate StartsWith(s: string, pat: string)
    decreases |pat|
  {
    |pat| == 0 || (|s| > 0 && s[0] == pat[0] && StartsWith(s[1..], pat[1..]))
  }

  /** `StartsWith` is the prefix test: the first `|pat|` characters of `s` are `pat`. */
  lemma {:induction false} StartsWithIsPrefix(s: string, pat: string)
    ensures StartsWith(s, pat) <==> |pat| <= |s| && s[..|pat|] == pat
    decreases |pat|
  {
    if |pat| > 0 && |s| > 0 {
      StartsWithIsPrefix(s[1..], pat[1..]);
      if |pat| <= |s| {
        assert s[..|pat|] == [s[0]] + s[1..][..|pat| - 1];
        assert pat == [pat[0]] + pat[1..];
      }
    }
  }

  lemma {:induction false} StartsWithItself(pat: string, b: string)
    ensures StartsWith(pat + b, pat)
    decreases |pat|
  {
    if |pat| > 0 {
      assert (pat + b)[0] == pat[0] && (pat + b)[1..] == pat[1..] + b;
      StartsWithItself(pat[1..], b);
    }
  }

  /** Every occurrence of `pat`, scanning left to right without overlap, replaced by `rep`. */
  function ReplaceAll(s: string, pat: string, rep: string): (r: string)
    requires |pat| > 0
    ensures |rep| <= |pat| ==> |r| <= |s|
    ensures |s| < |pat| ==> r == s
    ensures StartsWith(s, pat) && |s| >= |pat| ==> |r| >= |rep| && r[..|rep|] == rep
    decreases |s|
  {
    if |s| < |pat| then s
    else if StartsWith(s, pat) then rep + ReplaceAll(s[|pat|..], pat, rep)
    else [s[0]] + ReplaceAll(s[1..], pat, rep)
  }

  /** A part holding no first character of the pattern passes through untouched. */
  lemma {:induction false} ReplaceAllSkips(a: string, b: string, pat: string, rep: string)
    requires |pat| > 0 && Lacks(a, pat[0])
    ensures ReplaceAll(a + b, pat, rep) == a + ReplaceAll(b, pat, rep)
    decreases |a|
  {
    if a == [] {
      assert a + b == b;
    } else if |a + b| < |pat| {
      assert |b| < |pat|;
    } else {
      assert (a + b)[0] == a[0] != pat[0];
      assert (a + b)[1..] == a[1..] + b;
      ReplaceAllSkips(a[1..], b, pat, rep);
      Reassociate([a[0]], a[1..], ReplaceAll(b, pat, rep));
      assert [a[0]] + a[1..] == a;
    }
  }

  lemma {:induction false} ReplaceAllHead(pat: string, b: string, rep: string)
    requires |pat| > 0
    ensures ReplaceAll(pat + b, pat, rep) == rep + ReplaceAll(b, pat, rep)
  {
    StartsWithItself(pat, b);
    assert (pat + b)[|pat|..] == b;
  }

  lemma {:induction false} ReplaceAllAbsent(s: string, pat: string, rep: string)
    requires |pat| > 0 && Lacks(s, pat[0])
    ensures ReplaceAll(s, pat, rep) == s
  {
    ReplaceAllSkips(s, [], pat, rep);
    assert s + [] == s;
  }

  // ---------------------------------------------------------------------------------------
  // Parsing a 32-bit int the way the worker's conversion does

  datatype ParseResult = Parsed(value: int) | FormatError | OverflowError

  /** White space the integer parser skips at either end. */
  predicate IsWhite(c: char) { c == ' ' || '\t' <= c <= '\r' }

  function TrimStart(s: string): string {
    if s != [] && IsWhite(s[0]) then TrimStart(s[1..]) else s
  }

  function TrimEnd(s: string): string {
    if s != [] && IsWhite(s[|s| - 1]) then TrimEnd(s[..|s| - 1]) else s
  }

  /**
   * Optional white space, an optional sign, one or more decimal digits, optional white space;
   * a value outside the 32-bit range is an overflow.
   */
  function ParseInt32(s: string): (r: ParseResult)
    ensures r.Parsed? ==> Int32Min <= r.value <= Int32Max
  {
    var t := TrimEnd(TrimStart(s));
    var signed := |t| > 0 && (t[0] == '-' || t[0] == '+');
    var digits := if signed then t[1..] else t;
    if digits == [] || !AllDigits(digits) then FormatError
    else
      var v: int := if signed && t[0] == '-' then -(DigitsValue(digits) as int) else DigitsValue(digits);
      if v < Int32Min || Int32Max < v then OverflowError else Parsed(v)
  }

  lemma {:induction false} TrimStartKeeps(s: string, c: char)
    requires c in s && !IsWhite(c)
    ensures c in TrimStart(s)
    decreases |s|
  {
    if s != [] && IsWhite(s[0]) {
      assert s == [s[0]] + s[1..];
      TrimStartKeeps(s[1..], c);
    }
  }

  lemma {:induction false} TrimEndKeeps(s: string, c: char)
    requires c in s && !IsWhite(c)
    ensures c in TrimEnd(s)
    decreases |s|
  {
    if s != [] && IsWhite(s[|s| - 1]) {
      assert s == s[..|s| - 1] + [s[|s| - 1]];
      TrimEndKeeps(s[..|s| - 1], c);
    }
  }

  /** A character that is neither a digit, white space nor a sign makes the conversion fail. */
  lemma {:induction false} ParseRejectsNonNumeric(s: string, k: nat)
    requires k < |s|
    requires !IsDigit(s[k]) && !IsWhite(s[k]) && s[k] != '-' && s[k] != '+'
    ensures ParseInt32(s) == FormatError
  {
    var c := s[k];
    TrimStartKeeps(s, c);
    TrimEndKeeps(TrimStart(s), c);
    var t := TrimEnd(TrimStart(s));
    var signed := |t| > 0 && (t[0] == '-' || t[0] == '+');
    var digits := if signed then t[1..] else t;
    assert t == [t[0]] + t[1..];
    assert c in digits;
  }

  /** A string that neither starts nor ends with white space is its own trimmed form. */
  lemma {:induction false} NothingToTrim(s: string)
    requires |s| > 0 && !IsWhite(s[0]) && !IsWhite(s[|s| - 1])
    ensures TrimEnd(TrimStart(s)) == s
  {
  }

  /** The conversion reads back every 32-bit int from its decimal form. */
  lemma {:induction false} ParseIntToString(n: int)
    requires Int32Min <= n <= Int32Max
    ensures ParseInt32(IntToString(n)) == Parsed(n)
  {
    var m: nat := if n < 0 then -n else n;
    var d := NatToString(m);
    NatToStringRoundTrip(m);
    var s := IntToString(n);
    assert s == if n < 0 then "-" + d else d;
    assert s[|s| - 1] == d[|d| - 1];
    NothingToTrim(s);
    var digits := if n < 0 then s[1..] else s;
    assert digits == d;
  }

  // ---------------------------------------------------------------------------------------
  // Connected-realm references

  /** The reference the realm index gives for realm `id` of `region`. */
  function RealmHref(region: Region, id: int): string {
    region.HrefPrefix() + IntToString(id) + region.HrefSuffix()
  }

  /** Cut the region's prefix and suffix out of a reference and read what is left as an int. */
  function ParseRealmId(region: Region, href: string): (r: ParseResult)
    ensures r.Parsed? ==> Int32Min <= r.value <= Int32Max
  {
    ParseInt32(ReplaceAll(ReplaceAll(href, region.HrefPrefix(), ""), region.HrefSuffix(), ""))
  }

  /** The shapes of the two regions' reference prefixes and suffixes. */
  lemma {:induction false} Affixes(region: Region)
    ensures |region.HrefPrefix()| > 0 && region.HrefPrefix()[0] == 'h'
    ensures |region.HrefSuffix()| > 0 && region.HrefSuffix()[0] == '?'
    ensures Lacks(region.HrefSuffix(), 'h')
  {
    var s := region.HrefSuffix();
    forall i | 0 <= i < |s| ensures s[i] != 'h' {
    }
    match region
    case Europe =>
    case US =>
  }

  /** The decimal form of an int holds neither the first character of a prefix nor of a suffix. */
  lemma {:induction false} IntFormLacks(n: int, c: char)
    requires !IsDigit(c) && c != '-'
    ensures Lacks(IntToString(n), c)
  {
    var s := IntToString(n);
    IntToStringDigits(n);
    forall i | 0 <= i < |s| ensures s[i] != c {
      if n < 0 && i > 0 {
        assert s[1..][i - 1] == s[i];
      }
    }
  }

  /** Cutting a prefix and a suffix out of `p + d + q` leaves `d`, when neither reappears. */
  lemma {:induction false} StripRoundTrip(p: string, d: string, q: string)
    requires |p| > 0 && |q| > 0
    requires Lacks(d, p[0]) && Lacks(q, p[0]) && Lacks(d, q[0])
    ensures ReplaceAll(ReplaceAll(p + d + q, p, ""), q, "") == d
  {
    assert Lacks(d + q, p[0]) by {
      forall i | 0 <= i < |d + q| ensures (d + q)[i] != p[0] {
        if i >= |d| { assert (d + q)[i] == q[i - |d|]; }
      }
    }
    assert p + d + q == p + (d + q);
    ReplaceAllHead(p, d + q, "");
    ReplaceAllAbsent(d + q, p, "");
    assert "" + (d + q) == d + q;
    ReplaceAllSkips(d, q, q, "");
    ReplaceAllHead(q, [], "");
    assert q + [] == q;
  }

  /** Every 32-bit realm id is read back from the reference the index gives for it. */
  lemma {:induction false} RealmIdRoundTrip(region: Region, id: int)
    requires Int32Min <= id <= Int32Max
    ensures ParseRealmId(region, RealmHref(region, id)) == Parsed(id)
  {
    var p, d, q := region.HrefPrefix(), IntToString(id), region.HrefSuffix();
    Affixes(region);
    IntFormLacks(id, 'h');
    IntFormLacks(id, '?');
    StripRoundTrip(p, d, q);
    ParseIntToString(id);
  }
}
