/**
 The two tests for gzip in a list-valued header: the server's scanner, which walks over the bytes with
 nested loops, and the client's, which splits the header at its commas.
 */
module GzipHeader {
  import opened Strings

  const GZIP: string := "gzip"

  function Lower(c: char): char { if 'A' <= c <= 'Z' then c + ' ' else c }

  function ToLower(s: string): (r: string)
    ensures |r| == |s| && forall i :: 0 <= i < |s| ==> r[i] == Lower(s[i])
  {
    seq(|s|, i requires 0 <= i < |s| => Lower(s[i]))
  }

  predicate EqualFold(s: string, t: string) {
    |s| == |t| && forall i :: 0 <= i < |s| ==> Lower(s[i]) == Lower(t[i])
  }

  predicate IsAscii(s: string) { forall i :: 0 <= i < |s| ==> s[i] < 128 as char }

  /** The blanks that TrimSpace removes from ASCII text. */
  predicate IsBlank(c: char) { c == ' ' || '\t' <= c <= '\r' }

  function TrimLeft(s: string, blank: char -> bool): string {
    if s != [] && blank(s[0]) then TrimLeft(s[1..], blank) else s
  }

  function TrimRight(s: string, blank: char -> bool): string {
    if s != [] && blank(s[|s| - 1]) then TrimRight(s[..|s| - 1], blank) else s
  }

  function TrimSpace(s: string): string { TrimRight(TrimLeft(s, IsBlank), IsBlank) }

  predicate IsSpace(c: char) { c == ' ' }

  // ---------------------------------------------------------------- what each test accepts

  /** s starts with gzip, in any case, and there the text ends or a space follows. */
  predicate StartsWithGzip(s: string) {
    |s| >= 4 && EqualFold(s[..4], GZIP) && (|s| == 4 || s[4] == ' ')
  }

  predicate ElementMatches(e: string) { StartsWithGzip(TrimLeft(e, IsSpace)) }

  predicate SomeElement(s: string) { exists k :: 0 <= k < |Split(s, ',')| && ElementMatches(Split(s, ',')[k]) }

  predicate ServerAccepts(enc: string) { Contains(enc, GZIP) && SomeElement(enc) }

  predicate ClientMatches(e: string) { TrimSpace(ToLower(e)) == GZIP }

  predicate ClientAccepts(enc: string) { exists k :: 0 <= k < |Split(enc, ',')| && ClientMatches(Split(enc, ',')[k]) }

  // ---------------------------------------------------------------- the scanner

  /** The length of the first element. */
  function FirstComma(s: string): (c: nat)
    ensures c <= |s|
    ensures c < |s| ==> s[c] == ','
    ensures forall i :: 0 <= i < c ==> s[i] != ','
  {
    if s == [] || s[0] == ',' then 0 else 1 + FirstComma(s[1..])
  }

  /** An element after the first matches. */
  predicate SomeLater(s: string) { FirstComma(s) < |s| && SomeElement(s[FirstComma(s) + 1..]) }

  lemma {:induction false} SplitFirst(s: string)
    ensures Split(s, ',')[0] == s[..FirstComma(s)]
    ensures Split(s, ',')[1..]
         == if FirstComma(s) < |s| then Split(s[FirstComma(s) + 1..], ',') else []
  {
    if s != [] && s[0] != ',' {
      SplitFirst(s[1..]);
      var c := FirstComma(s[1..]);
      assert s[..c + 1] == [s[0]] + s[1..][..c];
      if c < |s[1..]| {
        assert s[1..][c + 1..] == s[c + 2..];
      }
    }
  }

  /** The header matches in its first element or in a later one. */
  lemma FirstOrLater(s: string)
    ensures SomeElement(s) <==> ElementMatches(s[..FirstComma(s)]) || SomeLater(s)
  {
    SplitFirst(s);
    var parts := Split(s, ',');
    if SomeElement(s) {
      var k :| 0 <= k < |parts| && ElementMatches(parts[k]);
      if k > 0 {
        assert parts[k] == parts[1..][k - 1];
      }
    }
    if SomeLater(s) {
      var k :| 0 <= k < |parts[1..]| && ElementMatches(parts[1..][k]);
      assert parts[k + 1] == parts[1..][k];
    }
  }

  /** Skipping a leading space or comma changes nothing. */
  lemma SkipOne(s: string)
    requires s != [] && (s[0] == ' ' || s[0] == ',')
    ensures SomeElement(s) <==> SomeElement(s[1..])
  {
    FirstOrLater(s);
    FirstOrLater(s[1..]);
    var c := FirstComma(s);
    if s[0] == ' ' {
      assert s[..c][1..] == s[1..][..c - 1];
      if c < |s| {
        assert s[c + 1..] == s[1..][c - 1 + 1..];
      }
    } else {
      assert s[..0] == [];
    }
  }

  lemma TokenHasNoComma(s: string)
    requires 4 <= |s| && EqualFold(s[..4], GZIP)
    ensures 4 <= FirstComma(s) && s[0] != ' '
  {
    forall i | 0 <= i < 4 ensures s[i] != ',' && s[i] != ' ' {
      assert Lower(s[i]) == Lower(s[..4][i]) == Lower(GZIP[i]);
    }
  }

  /** Where no space or comma leads, the scanner's comparison is that of the first element. */
  lemma {:induction false} CompareHere(s: string)
    requires s != [] && s[0] != ' '
    ensures ElementMatches(s[..FirstComma(s)]) <==>
              4 <= |s| && EqualFold(s[..4], GZIP) && (|s| == 4 || s[4] == ',' || s[4] == ' ')
  {
    var e := s[..FirstComma(s)];
    assert e != [] ==> e[0] == s[0];
    assert TrimLeft(e, IsSpace) == e;
    if 4 <= |s| && EqualFold(s[..4], GZIP) {
      TokenHasNoComma(s);
    }
    if 4 <= |e| {
      assert e[..4] == s[..4];
    }
  }

  /** The scanner's comparison at position i. */
  predicate TokenAt(enc: string, i: nat) {
    i + 4 <= |enc| && EqualFold(enc[i..i + 4], GZIP) && (i + 4 == |enc| || enc[i + 4] == ',' || enc[i + 4] == ' ')
  }

  lemma TokenOrLater(enc: string, i: nat)
    requires i <= |enc| && (i < |enc| ==> enc[i] != ' ')
    ensures SomeElement(enc[i..]) <==> TokenAt(enc, i) || SomeLater(enc[i..])
  {
    var s := enc[i..];
    FirstOrLater(s);
    if i < |enc| {
      CompareHere(s);
      assert i + 4 <= |enc| ==> s[..4] == enc[i..i + 4];
    } else {
      assert !ElementMatches([]);
    }
  }

  predicate IsSeparator(c: char) { c == ' ' || c == ',' }

  lemma {:induction false} SkipSeparators(enc: string, i: nat, p: nat)
    requires i <= p <= |enc| && forall k :: i <= k < p ==> IsSeparator(enc[k])
    ensures SomeElement(enc[i..]) <==> SomeElement(enc[p..])
    decreases p - i
  {
    if i < p {
      SkipOne(enc[i..]);
      assert enc[i..][1..] == enc[i + 1..];
      SkipSeparators(enc, i + 1, p);
    }
  }

  /** Where the scanner stands after the separators from i on. */
  function AfterSeparators(enc: string, i: nat): (p: nat)
    requires i <= |enc|
    ensures i <= p <= |enc|
    ensures forall k :: i <= k < p ==> IsSeparator(enc[k])
    ensures p < |enc| ==> !IsSeparator(enc[p])
    decreases |enc| - i
  {
    if i < |enc| && IsSeparator(enc[i]) then AfterSeparators(enc, i + 1) else i
  }

  /** The position of the next comma, or the end. */
  function NextComma(enc: string, i: nat): (q: nat)
    requires i <= |enc|
    ensures i <= q <= |enc|
    ensures forall k :: i <= k < q ==> enc[k] != ','
    ensures q < |enc| ==> enc[q] == ','
    decreases |enc| - i
  {
    if i == |enc| || enc[i] == ',' then i else NextComma(enc, i + 1)
  }

  lemma CommaFrom(enc: string, p: nat)
    requires p <= |enc|
    ensures FirstComma(enc[p..]) == NextComma(enc, p) - p
  {
    var s, c, q := enc[p..], FirstComma(enc[p..]), NextComma(enc, p);
    assert forall k :: 0 <= k < |s| ==> s[k] == enc[p + k];
  }

  lemma LaterFrom(enc: string, p: nat)
    requires p <= |enc|
    ensures var q := NextComma(enc, p);
            SomeLater(enc[p..]) <==> q < |enc| && SomeElement(enc[q + 1..])
  {
    CommaFrom(enc, p);
    var q := NextComma(enc, p);
    if q < |enc| {
      assert enc[p..][q - p + 1..] == enc[q + 1..];
    }
  }

  lemma OneRound(enc: string, i: nat)
    requires i < |enc|
    ensures var p := AfterSeparators(enc, i);
            var q := NextComma(enc, p);
            SomeElement(enc[i..]) <==> TokenAt(enc, p) || (q < |enc| && SomeElement(enc[q + 1..]))
  {
    var p := AfterSeparators(enc, i);
    SkipSeparators(enc, i, p);
    TokenOrLater(enc, p);
    LaterFrom(enc, p);
  }

  /** Some element that begins at position i or later matches. */
  predicate SomeFrom(enc: string, i: nat) { i <= |enc| && SomeElement(enc[i..]) }

  lemma SomeFromEnds(enc: string)
    ensures SomeFrom(enc, 0) <==> SomeElement(enc)
    ensures forall i: nat :: |enc| <= i ==> !SomeFrom(enc, i)
  {
    assert enc[0..] == enc && enc[|enc|..] == [];
    assert Split([], ',') == [[]] && !ElementMatches([]);
  }

  lemma NextRound(enc: string, i: nat)
    requires i < |enc|
    ensures var p := AfterSeparators(enc, i);
            SomeFrom(enc, i) <==> TokenAt(enc, p) || SomeFrom(enc, NextComma(enc, p) + 1)
  {
    OneRound(enc, i);
  }

  method HasGzip(enc: string) returns (found: bool)
    ensures found <==> Contains(enc, GZIP)
  {
    var i := 0;
    while i + 4 <= |enc|
      invariant 0 <= i
      invariant forall j: nat :: j < i ==> !ContainsAt(enc, GZIP, j)
    {
      if enc[i..i + 4] == GZIP {
        ContainsIn(enc, GZIP, i);
        return true;
      }
      i := i + 1;
    }
    return false;
  }

  /** The scanner terminates and accepts exactly what ServerAccepts says. */
  method IsGzipEncoding(enc: string) returns (found: bool)
    ensures found <==> ServerAccepts(enc)
  {
    var quick := HasGzip(enc);
    if enc == "" || !quick {
      return false;
    }
    SomeFromEnds(enc);
    found := ScanElements(enc);
  }

  /** The loops behind the quick test. */
  method ScanElements(enc: string) returns (found: bool)
    ensures found <==> SomeFrom(enc, 0)
  {
    var i := 0;
    while i < |enc|
      invariant 0 <= i
      invariant SomeFrom(enc, 0) <==> SomeFrom(enc, i)
      decreases |enc| - i
    {
      NextRound(enc, i);
      ghost var token := AfterSeparators(enc, i);
      ghost var comma := NextComma(enc, token);
      while i < |enc| && (enc[i] == ' ' || enc[i] == ',')
        invariant i <= token
      {
        i := i + 1;
      }
      assert i == token;
      if i + 4 <= |enc| && EqualFold(enc[i..i + 4], "gzip") {
        var next := i + 4;
        if next == |enc| || enc[next] == ',' || enc[next] == ' ' {
          return true;
        }
      }
      while i < |enc| && enc[i] != ','
        invariant i <= comma
      {
        i := i + 1;
      }
      assert i == comma;
      i := i + 1;
    }
    SomeFromEnds(enc);
    return false;
  }

  /** The client's version. */
  method IsGzipEncodingSplit(enc: string) returns (found: bool)
    ensures found <==> ClientAccepts(enc)
  {
    var parts := Split(enc, ',');
    for k := 0 to |parts|
      invariant forall j :: 0 <= j < k ==> !ClientMatches(parts[j])
    {
      if TrimSpace(ToLower(parts[k])) == "gzip" {
        return true;
      }
    }
    return false;
  }

  // ---------------------------------------------------------------- the two tests against each other

  /** The blanks: of the ASCII characters just these six may stand around the token for the client. */
  lemma BlanksAreThese(c: char)
    requires c != ','
    ensures IsBlank(c) <==> c == ' ' || c == '\t' || c == '\n' || c == '\r' || c == 11 as char || c == 12 as char
    ensures ClientMatches([c] + GZIP) <==> IsBlank(c)
  {
    var e := [c] + GZIP;
    assert e[1..] == GZIP && GZIP[..4] == GZIP;
    ClientReads(e);
    if IsBlank(c) {
      assert Lead(e) == 1 && Body(e) == GZIP;
    } else {
      assert Lead(e) == 0 && Body(e) == e;
      assert e[..4][3] == 'i';
    }
  }

  /** How many blanks of any kind lead. */
  function Lead(e: string): (n: nat)
    ensures n <= |e| && (n < |e| ==> !IsBlank(e[n]))
    ensures forall i :: 0 <= i < n ==> IsBlank(e[i])
  {
    if e != [] && IsBlank(e[0]) then 1 + Lead(e[1..]) else 0
  }

  /** The element without its leading blanks. */
  function Body(e: string): string { e[Lead(e)..] }

  /** The element's text begins with gzip in any case. */
  predicate HasToken(e: string) { 4 <= |Body(e)| && EqualFold(Body(e)[..4], GZIP) }

  /** A blank other than a space stands somewhere before the token or right behind it. */
  predicate OddBlank(e: string) {
    || (exists i :: 0 <= i < Lead(e) && e[i] != ' ')
    || (4 < |Body(e)| && IsBlank(Body(e)[4]) && Body(e)[4] != ' ')
  }

  /** More text follows, be it at once or after blanks. */
  predicate TextBehind(e: string) { exists j :: 4 <= j < |Body(e)| && !IsBlank(Body(e)[j]) }

  predicate SpaceBehind(e: string) { 4 < |Body(e)| && Body(e)[4] == ' ' }

  predicate ForBoth(e: string) { HasToken(e) && !OddBlank(e) && !TextBehind(e) }

  predicate ForClientOnly(e: string) { HasToken(e) && OddBlank(e) && !TextBehind(e) }

  predicate ForServerOnly(e: string) { HasToken(e) && !OddBlank(e) && TextBehind(e) && SpaceBehind(e) }

  lemma {:induction false} TrimLeftShape(s: string, blank: char -> bool) returns (n: nat)
    ensures n <= |s| && TrimLeft(s, blank) == s[n..]
    ensures n < |s| ==> !blank(s[n])
    ensures forall i :: 0 <= i < n ==> blank(s[i])
  {
    if s != [] && blank(s[0]) {
      n := TrimLeftShape(s[1..], blank);
      n := n + 1;
    } else {
      n := 0;
    }
  }

  /** TrimRight keeps s up to its last character that is not blank. */
  lemma {:induction false} TrimRightIs(s: string, n: nat)
    requires n <= |s| && (n > 0 ==> !IsBlank(s[n - 1]))
    requires forall i :: n <= i < |s| ==> IsBlank(s[i])
    ensures TrimRight(s, IsBlank) == s[..n]
  {
    if n < |s| {
      TrimRightIs(s[..|s| - 1], n);
    }
  }

  lemma {:induction false} TrimRightShape(s: string) returns (n: nat)
    ensures n <= |s| && TrimRight(s, IsBlank) == s[..n]
    ensures n > 0 ==> !IsBlank(s[n - 1])
    ensures forall i :: n <= i < |s| ==> IsBlank(s[i])
  {
    if s != [] && IsBlank(s[|s| - 1]) {
      n := TrimRightShape(s[..|s| - 1]);
    } else {
      n := |s|;
    }
  }

  lemma LoweredIsGzip(t: string)
    requires |t| == 4
    ensures ToLower(t) == GZIP <==> EqualFold(t, GZIP)
  {
    assert ToLower(GZIP) == GZIP;
    assert forall i :: 0 <= i < 4 ==> ToLower(t)[i] == Lower(t[i]) && GZIP[i] == Lower(GZIP[i]);
  }

  /** Behind its leading blanks the client wants gzip and then nothing but blanks. */
  lemma ClientReadsBody(t: string)
    ensures TrimRight(ToLower(t), IsBlank) == GZIP
            <==> 4 <= |t| && EqualFold(t[..4], GZIP) && forall j :: 4 <= j < |t| ==> IsBlank(t[j])
  {
    var u := ToLower(t);
    assert forall j :: 0 <= j < |t| ==> (IsBlank(u[j]) <==> IsBlank(t[j]));
    if 4 <= |t| {
      LoweredIsGzip(t[..4]);
      assert u[..4] == ToLower(t[..4]);
    }
    var n := TrimRightShape(u);
    if 4 <= |t| && u[..4] == GZIP && forall j :: 4 <= j < |t| ==> IsBlank(t[j]) {
      assert u[3] == GZIP[3];
      TrimRightIs(u, 4);
    }
  }

  lemma {:induction false} LowerBody(e: string)
    ensures TrimLeft(ToLower(e), IsBlank) == ToLower(Body(e))
  {
    if e != [] && IsBlank(e[0]) {
      LowerBody(e[1..]);
      assert ToLower(e)[1..] == ToLower(e[1..]);
      assert Body(e) == Body(e[1..]);
    } else {
      assert Body(e) == e;
    }
  }

  lemma ClientReads(e: string)
    ensures ClientMatches(e) <==> HasToken(e) && !TextBehind(e)
  {
    LowerBody(e);
    ClientReadsBody(Body(e));
  }

  /** The scanner skips spaces only: another blank in front of the token hides it. */
  lemma ServerReads(e: string)
    ensures ElementMatches(e) <==> HasToken(e) && !OddBlank(e) && (|Body(e)| == 4 || SpaceBehind(e))
  {
    var m := TrimLeftShape(e, IsSpace);
    if m < Lead(e) {
      NoTokenAtBlank(e[m..]);
    } else {
      assert m == Lead(e);
      assert TrimLeft(e, IsSpace) == Body(e);
    }
  }

  lemma NoTokenAtBlank(t: string)
    requires t != [] && IsBlank(t[0])
    ensures !StartsWithGzip(t)
  {
    if 4 <= |t| {
      assert Lower(t[..4][0]) != Lower(GZIP[0]);
    }
  }

  /** What each test makes of one element, by what stands beside the token. */
  lemma ElementsCompared(e: string)
    ensures ClientMatches(e) <==> ForBoth(e) || ForClientOnly(e)
    ensures ElementMatches(e) <==> ForBoth(e) || ForServerOnly(e)
  {
    ClientReads(e);
    ServerReads(e);
  }

  /** Some element of the header is of that kind. */
  predicate SomeIs(kind: string -> bool, enc: string) {
    exists k :: 0 <= k < |Split(enc, ',')| && kind(Split(enc, ',')[k])
  }

  /**
   On every ASCII header the two tests agree exactly under this condition. When gzip occurs in lower
   case: some element suits both, or there are elements for the client only just when there are
   elements for the server only. When it does not: no element suits the client.
   */
  lemma HeadersCompared(enc: string)
    requires IsAscii(enc)
    ensures (ServerAccepts(enc) <==> ClientAccepts(enc)) <==>
              if Contains(enc, GZIP)
              then SomeIs(ForBoth, enc) || (SomeIs(ForClientOnly, enc) <==> SomeIs(ForServerOnly, enc))
              else !SomeIs(ForBoth, enc) && !SomeIs(ForClientOnly, enc)
  {
    forall k | 0 <= k < |Split(enc, ',')|
      ensures ClientMatches(Split(enc, ',')[k])
              <==> ForBoth(Split(enc, ',')[k]) || ForClientOnly(Split(enc, ',')[k])
      ensures ElementMatches(Split(enc, ',')[k])
              <==> ForBoth(Split(enc, ',')[k]) || ForServerOnly(Split(enc, ',')[k])
    {
      ElementsCompared(Split(enc, ',')[k]);
    }
  }

  /** The only blanks in s are spaces. */
  predicate OnlySpaces(s: string) { forall i :: 0 <= i < |s| && IsBlank(s[i]) ==> s[i] == ' ' }

  /** Behind leading blanks a blank has text behind it. */
  predicate BlankInside(e: string) { exists i, j :: Lead(e) <= i < j < |e| && IsBlank(e[i]) && !IsBlank(e[j]) }

  lemma {:induction false} ElementsOnlySpaces(s: string)
    requires OnlySpaces(s)
    ensures forall k :: 0 <= k < |Split(s, ',')| ==> OnlySpaces(Split(s, ',')[k])
  {
    if s != [] {
      ElementsOnlySpaces(s[1..]);
    }
  }

  lemma NoOddBlank(e: string)
    requires OnlySpaces(e)
    ensures !OddBlank(e)
  {
    assert 4 < |Body(e)| ==> Body(e)[4] == e[Lead(e) + 4];
  }

  lemma SpacedElementsCompared(e: string)
    requires OnlySpaces(e)
    ensures ClientMatches(e) <==> ForBoth(e)
    ensures ElementMatches(e) <==> ForBoth(e) || ForServerOnly(e)
    ensures ForServerOnly(e) ==> BlankInside(e)
  {
    ElementsCompared(e);
    NoOddBlank(e);
    if ForServerOnly(e) {
      TextBehindSpace(e);
    }
  }

  lemma TextBehindSpace(e: string)
    requires TextBehind(e) && SpaceBehind(e)
    ensures BlankInside(e)
  {
    var j :| 4 <= j < |Body(e)| && !IsBlank(Body(e)[j]);
    assert IsBlank(e[Lead(e) + 4]) && !IsBlank(e[Lead(e) + j]);
  }

  /**
   In particular, on headers with gzip in lower case and no blanks but spaces the client accepts no more
   than the server does, and they agree when no element has a blank inside.
   */
  lemma SpacedHeadersCompared(enc: string)
    requires IsAscii(enc) && OnlySpaces(enc) && Contains(enc, GZIP)
    ensures ClientAccepts(enc) ==> ServerAccepts(enc)
    ensures (ServerAccepts(enc) <==> ClientAccepts(enc)) <==> SomeIs(ForBoth, enc) || !SomeIs(ForServerOnly, enc)
    ensures (forall k :: 0 <= k < |Split(enc, ',')| ==> !BlankInside(Split(enc, ',')[k])) ==>
              (ServerAccepts(enc) <==> ClientAccepts(enc))
  {
    ElementsOnlySpaces(enc);
    forall k | 0 <= k < |Split(enc, ',')|
      ensures ClientMatches(Split(enc, ',')[k]) <==> ForBoth(Split(enc, ',')[k])
      ensures ElementMatches(Split(enc, ',')[k])
              <==> ForBoth(Split(enc, ',')[k]) || ForServerOnly(Split(enc, ',')[k])
      ensures ForServerOnly(Split(enc, ',')[k]) ==> BlankInside(Split(enc, ',')[k])
    {
      SpacedElementsCompared(Split(enc, ',')[k]);
    }
  }

  /** A header for each way to differ. Without gzip in lower case only the client may accept. */
  lemma UpperCaseDiffers()
    ensures ClientAccepts("GZIP") && !ServerAccepts("GZIP")
  {
    SplitSingle("GZIP");
    TrimRightIs("gzip", 4);
    assert ToLower("GZIP") == "gzip";
    assert TrimLeft("gzip", IsBlank) == "gzip";
    assert ClientMatches(Split("GZIP", ',')[0]);
    assert forall i: nat :: i <= 4 ==> !ContainsAt("GZIP", GZIP, i);
  }

  /** A tab in front of the token is a blank for the client only. */
  lemma {:induction false} TabDiffers()
    ensures ClientAccepts("br,\tgzip") && !ServerAccepts("br,\tgzip")
  {
    assert "br,\tgzip" == "br" + [','] + "\tgzip";
    TabBeforeToken("br", "\tgzip");
  }

  lemma {:induction false} TabBeforeToken(other: string, e: string)
    requires other == "br" && |e| == 5 && e[0] == '\t' && e[1..] == GZIP
    ensures ClientAccepts(other + [','] + e) && !ServerAccepts(other + [','] + e)
  {
    assert e[1] == e[1..][0] && e[2] == e[1..][1] && e[3] == e[1..][2] && e[4] == e[1..][3];
    TabbedElement(e);
    ShortElement(other);
    TwoElements(other, e);
  }

  lemma {:induction false} TwoElements(a: string, b: string)
    requires (forall i :: 0 <= i < |a| ==> a[i] != ',') && (forall i :: 0 <= i < |b| ==> b[i] != ',')
    ensures ClientAccepts(a + [','] + b) <==> ClientMatches(a) || ClientMatches(b)
    ensures SomeElement(a + [','] + b) <==> ElementMatches(a) || ElementMatches(b)
  {
    SplitConcat(a, b, ',');
    SplitSingle(a);
    SplitSingle(b);
    var parts := Split(a + [','] + b, ',');
    assert parts == [a, b];
    assert parts[0] == a && parts[1] == b;
  }

  lemma TabbedElement(e: string)
    requires |e| == 5 && e[0] == '\t' && e[1..] == GZIP
    ensures ForClientOnly(e) && ClientMatches(e) && !ElementMatches(e)
  {
    assert Lead(e) == 1;
    assert Body(e) == GZIP && GZIP[..4] == GZIP;
    ElementsCompared(e);
  }

  lemma ShortElement(e: string)
    requires |e| < 4
    ensures !ClientMatches(e) && !ElementMatches(e)
  {
    ElementsCompared(e);
  }

  /** Text behind a space after the token is ignored by the server only. */
  lemma TextBehindDiffers()
    ensures ServerAccepts("gzip x") && !ClientAccepts("gzip x")
  {
    TextBehindToken("gzip x");
  }

  lemma TextBehindToken(s: string)
    requires |s| == 6 && s[..4] == GZIP && s[4] == ' ' && s[5] == 'x'
    ensures ServerAccepts(s) && !ClientAccepts(s)
  {
    assert s[0] == s[..4][0] && s[1] == s[..4][1] && s[2] == s[..4][2] && s[3] == s[..4][3];
    SplitSingle(s);
    ContainsIn(s, GZIP, 0);
    assert Body(s) == s;
    ElementsCompared(s);
    assert ForServerOnly(s) && Split(s, ',')[0] == s;
  }

  lemma {:induction false} SplitSingle(s: string)
    requires forall i :: 0 <= i < |s| ==> s[i] != ','
    ensures Split(s, ',') == [s]
  {
    SplitFirst(s);
    assert s[..|s|] == s;
  }
}
