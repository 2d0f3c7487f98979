/** String handling shared by the ingestion scripts and the web assistant:
    Python's whitespace class, `str.strip`, the `re.sub(r"\s+", " ", t).strip()`
    normalisation, `str.join`, and zero-padded decimal formatting (`{:03d}`). */
module Text {

  /** A character Python's `str.isspace` accepts; the `\s` class of `re`
      on str patterns matches the same characters. */
  predicate IsSpace(c: char) {
    ('\t' <= c <= '\r') || ('\U{1C}' <= c <= ' ') || c == '\U{85}' || c == '\U{A0}'
    || c == '\U{1680}' || ('\U{2000}' <= c <= '\U{200A}') || c == '\U{2028}'
    || c == '\U{2029}' || c == '\U{202F}' || c == '\U{205F}' || c == '\U{3000}'
  }

  /** Every character is whitespace (the empty string included). */
  predicate Blank(s: string) {
    forall i | 0 <= i < |s| :: IsSpace(s[i])
  }

  /** The non-whitespace characters of `s`, in order. */
  function NonSpace(s: string): string {
    if s == [] then []
    else if IsSpace(s[0]) then NonSpace(s[1..])
    else [s[0]] + NonSpace(s[1..])
  }

  /** Drops the longest whitespace prefix. */
  function TrimLeft(s: string): string
  {
    if |s| > 0 && IsSpace(s[0]) then TrimLeft(s[1..]) else s
  }

  /** Drops the longest whitespace suffix. */
  function TrimRight(s: string): string
  {
    if |s| > 0 && IsSpace(s[|s| - 1]) then TrimRight(s[..|s| - 1]) else s
  }

  /** Python's `str.strip()` with no argument. */
  function Strip(s: string): string
  {
    TrimRight(TrimLeft(s))
  }

  /** `TrimLeft` removes exactly the longest whitespace prefix. */
  lemma {:induction false} TrimLeftSpec(s: string)
    ensures |TrimLeft(s)| <= |s| && TrimLeft(s) == s[|s| - |TrimLeft(s)|..]
    ensures TrimLeft(s) == [] || !IsSpace(TrimLeft(s)[0])
    ensures forall i | 0 <= i < |s| - |TrimLeft(s)| :: IsSpace(s[i])
    decreases |s|
  {
    if |s| > 0 && IsSpace(s[0]) {
      TrimLeftSpec(s[1..]);
      forall i | 0 < i < |s| - |TrimLeft(s)| ensures IsSpace(s[i]) {
        assert s[i] == s[1..][i - 1];
      }
    }
  }

  /** `TrimRight` removes exactly the longest whitespace suffix. */
  lemma {:induction false} TrimRightSpec(s: string)
    ensures |TrimRight(s)| <= |s| && TrimRight(s) == s[..|TrimRight(s)|]
    ensures TrimRight(s) == [] || !IsSpace(TrimRight(s)[|TrimRight(s)| - 1])
    ensures forall i | |TrimRight(s)| <= i < |s| :: IsSpace(s[i])
    decreases |s|
  {
    if |s| > 0 && IsSpace(s[|s| - 1]) {
      var init := s[..|s| - 1];
      TrimRightSpec(init);
      forall i | |TrimRight(s)| <= i < |s| - 1 ensures IsSpace(s[i]) {
        assert s[i] == init[i];
      }
      assert TrimRight(s) == init[..|TrimRight(s)|] == s[..|TrimRight(s)|];
    }
  }

  /** The result of `strip` neither starts nor ends with whitespace. */
  lemma StripEnds(s: string)
    ensures Strip(s) == [] || (!IsSpace(Strip(s)[0]) && !IsSpace(Strip(s)[|Strip(s)| - 1]))
  {
    var l := TrimLeft(s);
    TrimLeftSpec(s);
    TrimRightSpec(l);
    if Strip(s) != [] {
      assert Strip(s)[0] == l[0];
    }
  }

  /** `re.sub(r"\s+", " ", s)`: every maximal run of whitespace becomes one
      space. Read left to right, a whitespace character followed by more
      whitespace is dropped and the last one of its run becomes `' '`. */
  function Collapse(s: string): string
    decreases |s|
  {
    if s == [] then []
    else if !IsSpace(s[0]) then [s[0]] + Collapse(s[1..])
    else if |s| > 1 && IsSpace(s[1]) then Collapse(s[1..])
    else " " + Collapse(s[1..])
  }

  /** After collapsing, whitespace occurs only as isolated plain spaces, the
      first character is whitespace exactly when it was before, and every
      non-whitespace character is kept in order. */
  lemma {:induction false} CollapseSpec(s: string)
    ensures SingleSpaced(Collapse(s))
    ensures |s| > 0 <==> |Collapse(s)| > 0
    ensures |s| > 0 ==> (IsSpace(Collapse(s)[0]) <==> IsSpace(s[0]))
    ensures NonSpace(Collapse(s)) == NonSpace(s)
    decreases |s|
  {
    if s != [] {
      var t := s[1..];
      var rest := Collapse(t);
      CollapseSpec(t);
      if !IsSpace(s[0]) || !(|s| > 1 && IsSpace(s[1])) {
        var r := Collapse(s);
        assert r[1..] == rest;
        assert NonSpace(r) == (if IsSpace(s[0]) then [] else [s[0]]) + NonSpace(rest);
      }
    }
  }

  /** Whitespace occurs only as isolated plain spaces. */
  predicate SingleSpaced(r: string) {
    forall i | 0 <= i < |r| && IsSpace(r[i]) :: r[i] == ' ' && (i + 1 < |r| ==> !IsSpace(r[i + 1]))
  }

  /** What `re.sub(r"\s+", " ", t).strip()` produces: single spaces inside, none at the ends. */
  predicate Normalized(r: string) {
    SingleSpaced(r) && (r == [] || (!IsSpace(r[0]) && !IsSpace(r[|r| - 1])))
  }

  /** `re.sub(r"\s+", " ", s).strip()`. */
  function Normalize(s: string): string {
    Strip(Collapse(s))
  }

  /** The normalised text is the words of `s` one space apart, so it has
      single spaces inside and none at the ends, keeps every non-whitespace
      character of `s` in order, and is empty exactly when `s` is blank. */
  lemma NormalizeSpec(s: string)
    ensures Normalize(s) == Join(Words(s), " ")
    ensures Normalized(Normalize(s))
    ensures NonSpace(Normalize(s)) == NonSpace(s)
    ensures Normalize(s) == [] <==> Blank(s)
  {
    NormalizeWords(s);
    var c := Collapse(s);
    CollapseSpec(s);
    StripEnds(c);
    StripKeepsSingleSpaced(c);
    StripKeepsNonSpace(c);
    StripEmptyIffBlank(c);
    NonSpaceEmptyIffBlank(c);
    NonSpaceEmptyIffBlank(s);
  }

  /** Single spacing survives taking a slice. */
  lemma SliceSingleSpaced(s: string, lo: nat, hi: nat)
    requires lo <= hi <= |s|
    requires SingleSpaced(s)
    ensures SingleSpaced(s[lo..hi])
  {
    var t := s[lo..hi];
    forall i | 0 <= i < |t| && IsSpace(t[i]) ensures t[i] == ' ' && (i + 1 < |t| ==> !IsSpace(t[i + 1])) {
      assert t[i] == s[lo + i];
      if i + 1 < |t| { assert t[i + 1] == s[lo + i + 1]; }
    }
  }

  /** `strip` returns a slice, so single spacing survives it. */
  lemma StripKeepsSingleSpaced(s: string)
    requires SingleSpaced(s)
    ensures SingleSpaced(Strip(s))
  {
    var l := TrimLeft(s);
    TrimLeftSpec(s);
    TrimRightSpec(l);
    SliceSingleSpaced(s, |s| - |l|, |s|);
    SliceSingleSpaced(l, 0, |TrimRight(l)|);
  }

  lemma {:induction false} NonSpaceAppend(a: string, b: string)
    ensures NonSpace(a + b) == NonSpace(a) + NonSpace(b)
    decreases |a|
  {
    if a == [] {
      assert a + b == b;
    } else {
      assert (a + b)[0] == a[0];
      assert (a + b)[1..] == a[1..] + b;
      NonSpaceAppend(a[1..], b);
    }
  }

  lemma {:induction false} NonSpaceOfBlank(s: string)
    requires Blank(s)
    ensures NonSpace(s) == []
    decreases |s|
  {
    if s != [] {
      NonSpaceOfBlank(s[1..]);
    }
  }

  lemma NonSpaceOfBlankPrefix(s: string, k: nat)
    requires k <= |s|
    requires forall i | 0 <= i < k :: IsSpace(s[i])
    ensures NonSpace(s) == NonSpace(s[k..])
  {
    assert s == s[..k] + s[k..];
    assert Blank(s[..k]);
    NonSpaceAppend(s[..k], s[k..]);
    NonSpaceOfBlank(s[..k]);
  }

  /** `strip` removes only whitespace. */
  lemma StripKeepsNonSpace(s: string)
    ensures NonSpace(Strip(s)) == NonSpace(s)
  {
    var l := TrimLeft(s);
    TrimLeftSpec(s);
    NonSpaceOfBlankPrefix(s, |s| - |l|);
    assert s[|s| - |l|..] == l;
    TrimRightKeepsNonSpace(l);
  }

  lemma TrimRightKeepsNonSpace(l: string)
    ensures NonSpace(TrimRight(l)) == NonSpace(l)
  {
    var r := TrimRight(l);
    TrimRightSpec(l);
    var tail := l[|r|..];
    assert l == r + tail;
    NonSpaceAppend(r, tail);
    assert Blank(tail) by {
      forall i | 0 <= i < |tail| ensures IsSpace(tail[i]) { assert tail[i] == l[|r| + i]; }
    }
    NonSpaceOfBlank(tail);
  }

  lemma {:induction false} NonSpaceEmptyIffBlank(s: string)
    ensures NonSpace(s) == [] <==> Blank(s)
    decreases |s|
  {
    if s != [] {
      NonSpaceEmptyIffBlank(s[1..]);
      if Blank(s[1..]) && IsSpace(s[0]) {
        assert Blank(s) by {
          forall i | 0 <= i < |s| ensures IsSpace(s[i]) {
            if i > 0 { assert s[i] == s[1..][i - 1]; }
          }
        }
      }
    }
  }

  /** `s.strip()` is empty exactly when `s` is blank. */
  lemma StripEmptyIffBlank(s: string)
    ensures Strip(s) == [] <==> Blank(s)
  {
    StripKeepsNonSpace(s);
    StripEnds(s);
    NonSpaceEmptyIffBlank(s);
    NonSpaceEmptyIffBlank(Strip(s));
  }

  lemma {:induction false} CollapseFixed(r: string)
    requires SingleSpaced(r)
    ensures Collapse(r) == r
    decreases |r|
  {
    if r != [] {
      var t := r[1..];
      assert SingleSpaced(t) by {
        forall i | 0 <= i < |t| && IsSpace(t[i]) ensures t[i] == ' ' && (i + 1 < |t| ==> !IsSpace(t[i + 1])) {
          assert t[i] == r[i + 1];
          if i + 1 < |t| { assert t[i + 1] == r[i + 2]; }
        }
      }
      CollapseFixed(t);
      if IsSpace(r[0]) {
        assert r == " " + t;
      } else {
        assert r == [r[0]] + t;
      }
    }
  }

  /** A normalized string is a fixed point of `Normalize`. */
  lemma NormalizeFixed(r: string)
    requires Normalized(r)
    ensures Normalize(r) == r
  {
    CollapseFixed(r);
    assert TrimLeft(r) == r;
  }

  /** `clean(clean(t)) == clean(t)`. */
  lemma NormalizeIdempotent(s: string)
    ensures Normalize(Normalize(s)) == Normalize(s)
  {
    NormalizeSpec(s);
    NormalizeFixed(Normalize(s));
  }

  /** Python's `sep.join(parts)`. */
  function Join(parts: seq<string>, sep: string): string
    decreases |parts|
  {
    if parts == [] then ""
    else if |parts| == 1 then parts[0]
    else Join(parts[..|parts| - 1], sep) + sep + parts[|parts| - 1]
  }

  lemma BlankAppend(a: string, b: string)
    ensures Blank(a + b) <==> Blank(a) && Blank(b)
  {
    if Blank(a) && Blank(b) {
      forall i | 0 <= i < |a + b| ensures IsSpace((a + b)[i]) {
        if i >= |a| { assert (a + b)[i] == b[i - |a|]; }
      }
    }
    if Blank(a + b) {
      forall i | 0 <= i < |b| ensures IsSpace(b[i]) { assert b[i] == (a + b)[|a| + i]; }
      forall i | 0 <= i < |a| ensures IsSpace(a[i]) { assert a[i] == (a + b)[i]; }
    }
  }

  /** With a blank separator, the joined text is blank exactly when every part is. */
  lemma {:induction false} JoinBlankIffPartsBlank(parts: seq<string>, sep: string)
    requires Blank(sep)
    ensures Blank(Join(parts, sep)) <==> forall k | 0 <= k < |parts| :: Blank(parts[k])
    decreases |parts|
  {
    if |parts| > 1 {
      var init := parts[..|parts| - 1];
      var last := parts[|parts| - 1];
      JoinBlankIffPartsBlank(init, sep);
      BlankAppend(Join(init, sep), sep);
      BlankAppend(Join(init, sep) + sep, last);
      if !Blank(Join(parts, sep)) {
        if forall k | 0 <= k < |init| :: Blank(init[k]) {
          assert !Blank(last);
        } else {
          var k :| 0 <= k < |init| && !Blank(init[k]);
          assert init[k] == parts[k];
        }
      } else {
        forall k | 0 <= k < |parts| ensures Blank(parts[k]) {
          if k < |init| { assert init[k] == parts[k]; }
        }
      }
    }
  }

  /** The longest prefix of `s` that holds no whitespace. */
  function Word(s: string): (w: string)
    ensures |w| <= |s| && w == s[..|w|]
    ensures forall i | 0 <= i < |w| :: !IsSpace(w[i])
    ensures |w| < |s| ==> IsSpace(s[|w|])
    decreases |s|
  {
    if s == [] || IsSpace(s[0]) then [] else [s[0]] + Word(s[1..])
  }

  /** Python's `s.split()` with no argument: the maximal runs of
      non-whitespace characters, in order. */
  function Words(s: string): seq<string>
    decreases |s|
  {
    if s == [] then []
    else if IsSpace(s[0]) then Words(s[1..])
    else [Word(s)] + Words(s[|Word(s)|..])
  }

  /** Joining with one more part in front. */
  lemma {:induction false} JoinCons(w: string, ws: seq<string>, sep: string)
    requires ws != []
    ensures Join([w] + ws, sep) == w + sep + Join(ws, sep)
    decreases |ws|
  {
    var s := [w] + ws;
    if |ws| == 1 {
      assert s[..|s| - 1] == [w];
    } else {
      var init := ws[..|ws| - 1];
      assert s[..|s| - 1] == [w] + init;
      JoinCons(w, init, sep);
    }
  }

  lemma {:induction false} NonSpaceOfWord(w: string)
    requires forall i | 0 <= i < |w| :: !IsSpace(w[i])
    ensures NonSpace(w) == w
    decreases |w|
  {
    if w != [] {
      NonSpaceOfWord(w[1..]);
    }
  }

  /** Every word is non-empty and free of whitespace, the words put together
      are the non-whitespace characters of `s`, and there are none exactly
      when `s` is blank. */
  lemma {:induction false} WordsSpec(s: string)
    ensures forall k | 0 <= k < |Words(s)| ::
      |Words(s)[k]| > 0 && forall i | 0 <= i < |Words(s)[k]| :: !IsSpace(Words(s)[k][i])
    ensures Join(Words(s), "") == NonSpace(s)
    ensures Words(s) == [] <==> Blank(s)
    decreases |s|
  {
    if s == [] {
    } else if IsSpace(s[0]) {
      WordsSpec(s[1..]);
      if Blank(s[1..]) {
        assert Blank(s) by {
          forall i | 0 < i < |s| ensures IsSpace(s[i]) { assert s[i] == s[1..][i - 1]; }
        }
      }
    } else {
      var w := Word(s);
      var r := s[|w|..];
      WordsSpec(r);
      assert s == w + r;
      NonSpaceAppend(w, r);
      NonSpaceOfWord(w);
      if Words(r) != [] {
        JoinCons(w, Words(r), "");
      }
    }
  }

  /** A run without whitespace passes through `Collapse` unchanged. */
  lemma {:induction false} CollapseWord(w: string, r: string)
    requires forall i | 0 <= i < |w| :: !IsSpace(w[i])
    ensures Collapse(w + r) == w + Collapse(r)
    decreases |w|
  {
    if w == [] {
      assert w + r == r;
    } else {
      assert (w + r)[1..] == w[1..] + r;
      CollapseWord(w[1..], r);
    }
  }

  /** A non-empty whitespace run that ends the string or is followed by a
      non-whitespace character becomes exactly one space. */
  lemma {:induction false} CollapseRun(b: string, t: string)
    requires |b| > 0 && Blank(b)
    requires t == [] || !IsSpace(t[0])
    ensures Collapse(b + t) == " " + Collapse(t)
    decreases |b|
  {
    var s := b + t;
    if |b| > 1 {
      assert s[1] == b[1];
      assert s[1..] == b[1..] + t;
      CollapseRun(b[1..], t);
    } else {
      assert s[1..] == t;
    }
  }

  /** Whitespace at the end does not survive `TrimRight`. */
  lemma {:induction false} TrimRightBlankTail(a: string, b: string)
    requires Blank(b)
    ensures TrimRight(a + b) == TrimRight(a)
    decreases |b|
  {
    var s := a + b;
    if b == [] {
      assert s == a;
    } else {
      assert s[|s| - 1] == b[|b| - 1];
      assert s[..|s| - 1] == a + b[..|b| - 1];
      TrimRightBlankTail(a, b[..|b| - 1]);
    }
  }

  /** `TrimRight` leaves everything before a non-blank tail alone. */
  lemma {:induction false} TrimRightKeepsHead(a: string, x: string)
    requires !Blank(x)
    ensures TrimRight(a + x) == a + TrimRight(x)
    decreases |x|
  {
    var s := a + x;
    assert s[|s| - 1] == x[|x| - 1];
    if IsSpace(x[|x| - 1]) {
      var init := x[..|x| - 1];
      var i :| 0 <= i < |x| && !IsSpace(x[i]);
      assert init[i] == x[i];
      assert s[..|s| - 1] == a + init;
      TrimRightKeepsHead(a, init);
    }
  }

  /** Leading whitespace does not matter to `Normalize`. */
  lemma NormalizeLeadingSpace(s: string)
    requires |s| > 0 && IsSpace(s[0])
    ensures Normalize(s) == Normalize(s[1..])
  {
    var t := s[1..];
    if t == [] {
      assert Collapse(s) == " ";
      assert TrimLeft(" ") == TrimLeft([]);
    } else if !IsSpace(t[0]) {
      assert Collapse(s) == " " + Collapse(t);
      assert (" " + Collapse(t))[1..] == Collapse(t);
    }
  }

  /** A string that starts with whitespace but is not blank collapses to one
      space followed by its normalised text. */
  lemma CollapseSpaceFirst(r: string)
    requires |r| > 0 && IsSpace(r[0]) && !Blank(r)
    ensures TrimRight(Collapse(r)) == " " + Normalize(r)
  {
    var cr := Collapse(r);
    CollapseSpec(r);
    NonSpaceEmptyIffBlank(r);
    NonSpaceEmptyIffBlank(cr);
    assert cr[0] == ' ';
    var i :| 0 <= i < |cr| && !IsSpace(cr[i]);
    var x := cr[1..];
    assert !IsSpace(x[0]);
    assert cr == " " + x;
    assert TrimLeft(cr) == x;
    TrimRightKeepsHead(" ", x);
  }

  /** A leading word is kept as it is; what follows it is either blank and
      dropped, or normalised and attached after one space. */
  lemma NormalizeAfterWord(w: string, r: string)
    requires |w| > 0 && forall i | 0 <= i < |w| :: !IsSpace(w[i])
    requires r == [] || IsSpace(r[0])
    ensures Normalize(w + r) == if Blank(r) then w else w + " " + Normalize(r)
  {
    var cr := Collapse(r);
    CollapseWord(w, r);
    CollapseSpec(r);
    NonSpaceEmptyIffBlank(r);
    NonSpaceEmptyIffBlank(cr);
    assert (w + cr)[0] == w[0];
    assert TrimLeft(w + cr) == w + cr;
    if Blank(r) {
      TrimRightBlankTail(w, cr);
    } else {
      TrimRightKeepsHead(w, cr);
      CollapseSpaceFirst(r);
    }
  }

  /** `re.sub(r"\s+", " ", s).strip()` equals `" ".join(s.split())`: the
      words of `s`, in order, one plain space apart. */
  lemma {:induction false} NormalizeWords(s: string)
    ensures Normalize(s) == Join(Words(s), " ")
    decreases |s|
  {
    if s == [] {
    } else if IsSpace(s[0]) {
      NormalizeLeadingSpace(s);
      NormalizeWords(s[1..]);
    } else {
      var w := Word(s);
      var r := s[|w|..];
      assert s == w + r;
      WordsSpec(r);
      NormalizeAfterWord(w, r);
      if Words(r) != [] {
        NormalizeWords(r);
        JoinCons(w, Words(r), " ");
      }
    }
  }

  predicate IsDigit(c: char) {
    '0' <= c <= '9'
  }

  predicate AllDigits(s: string) {
    forall i | 0 <= i < |s| :: IsDigit(s[i])
  }

  function DigitChar(d: nat): (c: char)
    requires d < 10
    ensures IsDigit(c) && c as int - '0' as int == d
  {
    ('0' as int + d) as char
  }

  /** Python's `str(n)` for a non-negative integer: the shortest decimal numeral. */
  function Decimal(n: nat): string
    decreases n
  {
    if n < 10 then [DigitChar(n)] else Decimal(n / 10) + [DigitChar(n % 10)]
  }

  /** The number a string of digits denotes; leading zeros do not count. */
  function DigitsValue(s: string): nat
    requires AllDigits(s)
    decreases |s|
  {
    if s == [] then 0
    else DigitsValue(s[..|s| - 1]) * 10 + (s[|s| - 1] as int - '0' as int)
  }

  /** `str(n)` is a non-empty string of digits that reads back as `n`, with no
      leading zero unless `n` is zero, whose numeral is `"0"`. */
  lemma {:induction false} DecimalSpec(n: nat)
    ensures |Decimal(n)| >= 1 && AllDigits(Decimal(n))
    ensures DigitsValue(Decimal(n)) == n
    ensures n > 0 ==> Decimal(n)[0] != '0'
    ensures n == 0 ==> Decimal(n) == "0"
    decreases n
  {
    var r := Decimal(n);
    if n < 10 {
      assert r[..0] == [];
    } else {
      DecimalSpec(n / 10);
      assert r[..|r| - 1] == Decimal(n / 10);
    }
  }

  function Zeros(k: nat): string {
    seq(k, _ => '0')
  }

  /** Python's format spec `{:0<width>d}` for a non-negative integer:
      zero-padded to at least `width` digits, never truncated. */
  function Padded(n: nat, width: nat): string {
    Zeros(if width > |Decimal(n)| then width - |Decimal(n)| else 0) + Decimal(n)
  }

  /** A padded numeral is all digits and exactly `max(width, |str(n)|)` long. */
  lemma PaddedSpec(n: nat, width: nat)
    ensures AllDigits(Padded(n, width))
    ensures |Padded(n, width)| == if width > |Decimal(n)| then width else |Decimal(n)|
  {
    DecimalSpec(n);
  }

  lemma {:induction false} LeadingZerosIgnored(k: nat, s: string)
    requires AllDigits(s)
    ensures DigitsValue(Zeros(k) + s) == DigitsValue(s)
    decreases |s|
  {
    if s == [] {
      assert Zeros(k) + s == Zeros(k);
      ZerosValue(k);
    } else {
      assert (Zeros(k) + s)[..|Zeros(k) + s| - 1] == Zeros(k) + s[..|s| - 1];
      LeadingZerosIgnored(k, s[..|s| - 1]);
    }
  }

  lemma {:induction false} ZerosValue(k: nat)
    ensures DigitsValue(Zeros(k)) == 0
  {
    if k > 0 {
      assert Zeros(k)[..k - 1] == Zeros(k - 1);
      ZerosValue(k - 1);
    }
  }

  /** Reading back a padded numeral gives the number. */
  lemma PaddedRoundTrip(n: nat, width: nat)
    ensures AllDigits(Padded(n, width)) && DigitsValue(Padded(n, width)) == n
  {
    DecimalSpec(n);
    LeadingZerosIgnored(if width > |Decimal(n)| then width - |Decimal(n)| else 0, Decimal(n));
  }

  /** Distinct numbers give distinct padded numerals. */
  lemma PaddedInjective(a: nat, b: nat, width: nat)
    ensures Padded(a, width) == Padded(b, width) <==> a == b
  {
    PaddedRoundTrip(a, width);
    PaddedRoundTrip(b, width);
  }

  /** Position of the first occurrence of `x` (`|s|` when absent). */
  function IndexOf<T(==)>(s: seq<T>, x: T): (k: nat)
    ensures k <= |s|
    ensures k < |s| <==> x in s
    ensures k < |s| ==> s[k] == x
    ensures forall i | 0 <= i < k :: s[i] != x
    decreases |s|
  {
    if s == [] then 0 else if s[0] == x then 0 else 1 + IndexOf(s[1..], x)
  }

  lemma IndexOfExtend<T>(s: seq<T>, last: T, x: T)
    requires x in s
    ensures IndexOf(s + [last], x) == IndexOf(s, x)
  {
    var t := s + [last];
    var k := IndexOf(s, x);
    assert t[k] == x;
    assert forall i | 0 <= i < k :: t[i] == s[i];
    IndexOfUnique(t, x, k);
  }

  lemma IndexOfUnique<T>(s: seq<T>, x: T, k: nat)
    requires k < |s| && s[k] == x && forall i | 0 <= i < k :: s[i] != x
    ensures IndexOf(s, x) == k
  {
  }

  /** If two strings `x + m + y` and `x' + m + y'` agree, where `m` starts with a
      character that neither `x` nor `x'` contains, then the pieces agree. */
  lemma SplitAtMarker(x: string, y: string, x': string, y': string, m: string)
    requires |m| > 0
    requires forall i | 0 <= i < |x| :: x[i] != m[0]
    requires forall i | 0 <= i < |x'| :: x'[i] != m[0]
    requires x + m + y == x' + m + y'
    ensures x == x' && y == y'
  {
    var s := x + m + y;
    assert s[|x|] == m[0] && forall i | 0 <= i < |x| :: s[i] == x[i];
    assert s[|x'|] == m[0] && forall i | 0 <= i < |x'| :: s[i] == x'[i];
    IndexOfUnique(s, m[0], |x|);
    IndexOfUnique(s, m[0], |x'|);
    assert x == s[..|x|] == x';
    assert y == s[|x| + |m|..] == y';
  }
}
