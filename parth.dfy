/** Package parth: positional access to the slash-delimited segments of a
    path, with lenient extraction of the first integer or decimal token of a
    segment before it is parsed. */
module Parth {
  import opened Results
  import opened PathStrings
  import opened Strconv

  // ---------------------------------------------------------------------
  // Locating a segment

  /** Where segment 0 begins: one leading slash is skipped, no more. */
  function Lead(path: string): nat {
    if |path| > 0 && path[0] == Slash then 1 else 0
  }

  /** The segments of a path: the pieces of what follows the skipped slash. */
  function Segments(path: string): seq<string> {
    Split(path[Lead(path)..])
  }

  /** A path of one byte that is not a slash: the scan of `String` opens its
      only segment at byte 0 but never closes it, so no index succeeds. */
  predicate NeverClosed(path: string) {
    |path| == 1 && path[0] != Slash
  }

  /** The segment that `String(i)` returns: piece `i` of `Segments(path)`,
      failing for a negative or missing index, for an empty piece, and for a
      one-byte path without a slash. */
  function Segment(path: string, i: int): (r: Result<string>)
    ensures r.Ok? ==> r.value != [] && Slash !in r.value
    ensures r.Err? ==> r.error == SegmentNotFound
  {
    var segs := Segments(path);
    SplitPieces(path[Lead(path)..]);
    if i < 0 || i >= |segs| || segs[i] == [] || NeverClosed(path) then Err(SegmentNotFound)
    else Ok(segs[i])
  }

  /** Byte offset of segment `i` within the path. */
  function SegmentStart(path: string, i: nat): nat
    requires i < |Segments(path)|
  {
    Lead(path) + Offset(Segments(path), i)
  }

  /** A found segment is a non-empty run of non-slash bytes of the path, with
      a slash or the path's edge on either side. */
  lemma SegmentIsSlice(path: string, i: int)
    requires Segment(path, i).Ok?
    ensures var x, a := Segment(path, i).value, SegmentStart(path, i);
      && x != [] && Slash !in x
      && a + |x| <= |path| && path[a..a + |x|] == x
      && (a == 0 || path[a - 1] == Slash)
      && (a + |x| == |path| || path[a + |x|] == Slash)
  {
    var l := Lead(path);
    var s := path[l..];
    SplitPieces(s);
    PieceSlice(s, i);
    ShiftSlice(path, l, Offset(Split(s), i), Split(s)[i]);
  }

  /** A single leading slash creates no segment: `"/a/b"` and `"a/b"` have
      the same segments. */
  lemma LeadingSlashIgnored(s: string, i: int)
    requires s == [] || s[0] != Slash
    requires !NeverClosed(s)
    ensures Segment([Slash] + s, i) == Segment(s, i)
  {
    assert ([Slash] + s)[1..] == s;
  }

  /** A second leading slash makes segment 0 empty, so it is not found. */
  lemma DoubleLeadingSlash(s: string)
    ensures Segment([Slash, Slash] + s, 0) == Err(SegmentNotFound)
  {
    var p := [Slash, Slash] + s;
    assert p[Lead(p)..] == [Slash] + s;
    SplitFirstEmpty([Slash] + s);
  }

  /** Adjacent slashes make an empty segment, which is not found. */
  lemma EmptySegmentNotFound(a: string, b: string)
    requires a != [] && a[0] != Slash
    ensures Segment(a + [Slash, Slash] + b, |Split(a)|) == Err(SegmentNotFound)
  {
    var p := a + [Slash, Slash] + b;
    assert p[Lead(p)..] == a + [Slash] + ([Slash] + b);
    SplitConcat(a, [Slash] + b);
    SplitFirstEmpty([Slash] + b);
  }

  /** `"a/b"` has the segments `"a"` and `"b"`, with or without a leading slash. */
  lemma SegmentsOfAB()
    ensures Segments("a/b") == ["a", "b"] && Segments("/a/b") == ["a", "b"]
  {
    SplitAt("a/b", 1);
    assert "a/b"[..1] == "a" && "a/b"[2..] == "b";
    SplitNoSlash("a");
    SplitNoSlash("b");
    assert "/a/b"[1..] == "a/b";
  }

  /** Concrete cases of the locating rules. */
  lemma SegmentExamples()
    ensures Segment("/a/b", 0) == Ok("a") && Segment("a/b", 0) == Ok("a")
    ensures Segment("/a/b", 1) == Ok("b") && Segment("/a/b", 2) == Err(SegmentNotFound)
    ensures Segment("/a/b", -1) == Err(SegmentNotFound)
  {
    SegmentsOfAB();
  }

  /** Concrete cases where nothing is found: an empty path, a lone slash, a
      doubled slash, and the one-byte path. */
  lemma SegmentEmptyExamples()
    ensures Segment("", 0) == Err(SegmentNotFound)
    ensures Segment("/", 0) == Err(SegmentNotFound)
    ensures Segment("//x", 0) == Err(SegmentNotFound)
    ensures Segment("a", 0) == Err(SegmentNotFound) && Segments("a") == ["a"]
  {
    assert "/"[1..] == "";
    DoubleLeadingSlash("x");
    assert [Slash, Slash] + "x" == "//x";
    SplitNoSlash("a");
  }

  /** A trailing doubled slash leaves an empty, unfound segment. */
  lemma SegmentTrailingExample()
    ensures Segment("/a//", 1) == Err(SegmentNotFound)
  {
    assert "/a//"[1..] == "a//";
    SplitAt("a//", 1);
    assert "a//"[..1] == "a" && "a//"[2..] == "/";
    SplitFirstEmpty("/");
  }

  // ---------------------------------------------------------------------
  // Numeric tokens

  /** A byte that starts the integer token: a digit or a minus sign. */
  predicate StartsInt(c: char) {
    IsDigit(c) || c == '-'
  }

  /** The longest prefix of `s` made of digits. */
  function DigitPrefix(s: string): (r: string)
    ensures |r| <= |s|
    decreases |s|
  {
    if s != [] && IsDigit(s[0]) then [s[0]] + DigitPrefix(s[1..]) else []
  }

  /** The digit prefix is a prefix, all digits, and stops only at the end
      or at a non-digit. */
  lemma {:induction false} DigitPrefixShape(s: string)
    ensures var r := DigitPrefix(s);
      && (forall k :: 0 <= k < |r| ==> r[k] == s[k]) && AllDigits(r)
      && (|r| == |s| || !IsDigit(s[|r|]))
    decreases |s|
  {
    if s != [] && IsDigit(s[0]) {
      DigitPrefixShape(s[1..]);
      var r' := DigitPrefix(s[1..]);
      var r := [s[0]] + r';
      assert forall k :: 1 <= k < |r| ==> r[k] == r'[k - 1] && s[k] == s[1..][k - 1];
      assert |r| < |s| ==> s[|r|] == s[1..][|r'|];
    }
  }

  /** A run of digits followed by a non-digit or the end is the whole digit prefix. */
  lemma {:induction false} DigitPrefixStop(a: string, b: string)
    requires AllDigits(a)
    requires b == [] || !IsDigit(b[0])
    ensures DigitPrefix(a + b) == a
    decreases |a|
  {
    if a != [] {
      assert (a + b)[1..] == a[1..] + b;
      DigitPrefixStop(a[1..], b);
    }
  }

  /** What `getIntString` finds: bytes that cannot start a token are skipped;
      a digit or `-` starts the token, which takes the digits that follow;
      a `.` followed by a digit before any token gives `"0"`, and a `.` as
      the last byte before any token reads past the end of the string. */
  function IntToken(s: string): (r: Result<string>)
    ensures r.Ok? ==> 1 <= |r.value| <= |s|
    ensures r.Err? ==> r.error == IntNotFound || r.error == IndexOutOfRange
    decreases |s|
  {
    if s == [] then Err(IntNotFound)
    else if StartsInt(s[0]) then Ok([s[0]] + DigitPrefix(s[1..]))
    else if s[0] == '.' && |s| == 1 then Err(IndexOutOfRange)
    else if s[0] == '.' && IsDigit(s[1]) then Ok("0")
    else IntToken(s[1..])
  }

  /** An integer token is a digit or `-`, then digits only. */
  lemma {:induction false} IntTokenShape(s: string)
    requires IntToken(s).Ok?
    ensures var t := IntToken(s).value;
      |t| >= 1 && StartsInt(t[0]) && AllDigits(t[1..])
    decreases |s|
  {
    if StartsInt(s[0]) {
      DigitPrefixShape(s[1..]);
      assert IntToken(s).value[1..] == DigitPrefix(s[1..]);
    } else if !(s[0] == '.' && |s| >= 2 && IsDigit(s[1])) {
      IntTokenShape(s[1..]);
    }
  }

  /** With no digit and no `-` there is no token; the scan then fails, or
      reads past the end when the last byte is a dot. */
  lemma {:induction false} IntTokenAbsent(s: string)
    requires forall k :: 0 <= k < |s| ==> !StartsInt(s[k])
    ensures IntToken(s) ==
      if |s| > 0 && s[|s| - 1] == '.' then Err(IndexOutOfRange) else Err(IntNotFound)
    decreases |s|
  {
    if s != [] && |s| > 1 {
      assert !IsDigit(s[1]) by { assert !StartsInt(s[1]); }
      IntTokenAbsent(s[1..]);
      assert s[1..][|s[1..]| - 1] == s[|s| - 1];
    }
  }

  /** The first digit or `-` starts the token (unless a dot right before a
      digit already gave `"0"`): the token is that byte and the digits after it. */
  lemma {:induction false} IntTokenFirst(s: string, k: nat)
    requires k < |s| && StartsInt(s[k])
    requires forall j :: 0 <= j < k ==> !StartsInt(s[j])
    requires !(0 < k && s[k - 1] == '.' && IsDigit(s[k]))
    ensures IntToken(s) == Ok([s[k]] + DigitPrefix(s[k + 1..]))
    decreases k
  {
    if k > 0 {
      var t := s[1..];
      assert !StartsInt(s[0]);
      assert !(s[0] == '.' && IsDigit(s[1])) by {
        if k > 1 { assert !StartsInt(s[1]); }
      }
      assert IntToken(s) == IntToken(t);
      assert t[k - 1] == s[k] && t[k..] == s[k + 1..];
      IntTokenFirst(t, k - 1);
    }
  }

  /** A dot followed by a digit, before any digit or `-`, gives `"0"`. */
  lemma {:induction false} IntTokenFraction(s: string, k: nat)
    requires k + 1 < |s| && s[k] == '.' && IsDigit(s[k + 1])
    requires forall j :: 0 <= j < k ==> !StartsInt(s[j])
    ensures IntToken(s) == Ok("0")
    decreases k
  {
    if k > 0 {
      assert !StartsInt(s[0]);
      assert !(s[0] == '.' && IsDigit(s[1])) by {
        if k > 1 { assert !StartsInt(s[1]); }
      }
      IntTokenFraction(s[1..], k - 1);
    }
  }

  /** The decimal spelling of an integer is its own integer token. */
  lemma IntTokenOfFormatted(v: int)
    ensures IntToken(FormatInt(v)) == Ok(FormatInt(v))
  {
    IntTokenLeading(v, []);
    assert FormatInt(v) + [] == FormatInt(v);
  }

  /** Bytes that are neither a digit, `-` nor a dot are skipped. */
  lemma {:induction false} IntTokenSkip(junk: string, t: string)
    requires forall k :: 0 <= k < |junk| ==> !StartsInt(junk[k]) && junk[k] != '.'
    ensures IntToken(junk + t) == IntToken(t)
    decreases |junk|
  {
    if junk == [] {
      assert junk + t == t;
    } else {
      var s := junk + t;
      assert s[0] == junk[0] && s[1..] == junk[1..] + t;
      assert IntToken(s) == IntToken(s[1..]);
      IntTokenSkip(junk[1..], t);
    }
  }

  /** A digit or `-` and then digits, followed by a non-digit, is the token. */
  lemma IntTokenOfShape(f: string, rest: string)
    requires |f| >= 1 && StartsInt(f[0]) && AllDigits(f[1..])
    requires rest == [] || !IsDigit(rest[0])
    ensures IntToken(f + rest) == Ok(f)
  {
    var s := f + rest;
    assert s != [] && s[0] == f[0];
    assert IntToken(s) == Ok([f[0]] + DigitPrefix(s[1..]));
    assert s[1..] == f[1..] + rest;
    DigitPrefixStop(f[1..], rest);
    assert [f[0]] + f[1..] == f;
  }

  /** A decimal number followed by a non-digit is the token. */
  lemma IntTokenLeading(v: int, rest: string)
    requires rest == [] || !IsDigit(rest[0])
    ensures IntToken(FormatInt(v) + rest) == Ok(FormatInt(v))
  {
    FormatIntShape(v);
    IntTokenOfShape(FormatInt(v), rest);
  }

  /** A decimal number inside other text is found when the text before it
      holds no digit, `-` or `.`, and no digit follows it. */
  lemma IntTokenEmbedded(junk: string, v: int, rest: string)
    requires forall k :: 0 <= k < |junk| ==> !StartsInt(junk[k]) && junk[k] != '.'
    requires rest == [] || !IsDigit(rest[0])
    ensures IntToken(junk + FormatInt(v) + rest) == Ok(FormatInt(v))
  {
    var f := FormatInt(v);
    assert junk + f + rest == junk + (f + rest);
    IntTokenSkip(junk, f + rest);
    IntTokenLeading(v, rest);
  }

  /** Concrete cases of the integer scan: the token ends at a `-` after
      it, skips letters before it, and keeps a leading minus sign. */
  lemma IntTokenExamples()
    ensures IntToken("10-") == Ok("10")
    ensures IntToken("aaa6aa") == Ok("6")
    ensures IntToken("-9") == Ok("-9")
  {
    assert "10-" == "10" + "-";
    IntTokenOfShape("10", "-");
    assert "aaa6aa" == "aaa" + ("6" + "aa");
    IntTokenOfShape("6", "aa");
    IntTokenSkip("aaa", "6" + "aa");
    assert "-9" == "-9" + [];
    IntTokenOfShape("-9", []);
  }

  /** A dot before a digit gives `"0"`; a lone dot reads past the end; no
      candidate byte at all gives no token. */
  lemma IntTokenDotExamples()
    ensures IntToken(".7.aaaa") == Ok("0")
    ensures IntToken(".") == Err(IndexOutOfRange)
    ensures IntToken("error") == Err(IntNotFound)
  {
    IntTokenFraction(".7.aaaa", 0);
    IntTokenAbsent(".");
    IntTokenAbsent("error");
  }

  /** A byte that starts the decimal token: a digit, `-` or `.`. */
  predicate StartsFloat(c: char) {
    IsDigit(c) || c == '-' || c == '.'
  }

  /** The longest prefix of `s` made of digits and at most one dot, or of
      digits only once a dot has been seen. */
  function FloatTail(s: string, dotSeen: bool): (r: string)
    ensures |r| <= |s|
    decreases |s|
  {
    if s == [] then []
    else if IsDigit(s[0]) then [s[0]] + FloatTail(s[1..], dotSeen)
    else if s[0] == '.' && !dotSeen then [s[0]] + FloatTail(s[1..], true)
    else []
  }

  /** At most one byte of `t` is a dot. */
  predicate AtMostOneDot(t: string) {
    forall j, k :: 0 <= j < k < |t| && t[j] == '.' ==> t[k] != '.'
  }

  /** The tail is a prefix of `s` that stops only at the end or at a byte
      it may not take: it is the longest such prefix. */
  lemma {:induction false} FloatTailPrefix(s: string, dotSeen: bool)
    ensures var r := FloatTail(s, dotSeen);
      && (forall k :: 0 <= k < |r| ==> r[k] == s[k])
      && (|r| == |s| || !(IsDigit(s[|r|]) || (s[|r|] == '.' && !dotSeen && '.' !in r)))
    decreases |s|
  {
    if s != [] && (IsDigit(s[0]) || (s[0] == '.' && !dotSeen)) {
      var d := dotSeen || s[0] == '.';
      FloatTailPrefix(s[1..], d);
      var r' := FloatTail(s[1..], d);
      var r := [s[0]] + r';
      assert forall k :: 1 <= k < |r| ==> r[k] == r'[k - 1] && s[k] == s[1..][k - 1];
      assert |r| < |s| ==> s[|r|] == s[1..][|r'|];
      assert ('.' in r) == (s[0] == '.' || '.' in r');
    }
  }

  /** The tail holds digits and at most one dot, and none once a dot has
      been seen. */
  lemma {:induction false} FloatTailChars(s: string, dotSeen: bool)
    ensures var r := FloatTail(s, dotSeen);
      && (forall k :: 0 <= k < |r| ==> IsDigit(r[k]) || r[k] == '.')
      && (dotSeen ==> '.' !in r)
      && AtMostOneDot(r)
    decreases |s|
  {
    if s != [] && (IsDigit(s[0]) || (s[0] == '.' && !dotSeen)) {
      var d := dotSeen || s[0] == '.';
      FloatTailChars(s[1..], d);
      var r' := FloatTail(s[1..], d);
      var r := [s[0]] + r';
      assert forall k :: 1 <= k < |r| ==> r[k] == r'[k - 1];
    }
  }

  /** A candidate token is accepted unless it is a lone dot. */
  function FloatAccept(t: string): Result<string> {
    if t == "." then Err(FloatNotFound) else Ok(t)
  }

  /** What `getFloatString` finds: bytes that cannot start a token are
      skipped; a digit, `-` or `.` starts the token, which takes the digits
      and at most one dot that follow. A lone dot is no token. */
  function FloatToken(s: string): (r: Result<string>)
    ensures r.Ok? ==> 1 <= |r.value| <= |s| && r.value != "."
    ensures r.Err? ==> r.error == FloatNotFound
    decreases |s|
  {
    if s == [] then Err(FloatNotFound)
    else if StartsFloat(s[0]) then FloatAccept([s[0]] + FloatTail(s[1..], s[0] == '.'))
    else FloatToken(s[1..])
  }

  /** A decimal token holds only digits, `-` and `.`, so never an exponent;
      `-` appears at most as its first byte, `.` at most once, and it is
      never a lone dot. */
  lemma {:induction false} FloatTokenShape(s: string)
    requires FloatToken(s).Ok?
    ensures var t := FloatToken(s).value;
      && |t| >= 1 && t != "." && StartsFloat(t[0])
      && (forall k :: 1 <= k < |t| ==> IsDigit(t[k]) || t[k] == '.')
      && AtMostOneDot(t)
    decreases |s|
  {
    if !StartsFloat(s[0]) {
      FloatTokenShape(s[1..]);
    } else {
      var d := s[0] == '.';
      FloatTailChars(s[1..], d);
      var tail := FloatTail(s[1..], d);
      var t := [s[0]] + tail;
      assert forall k :: 1 <= k < |t| ==> t[k] == tail[k - 1];
    }
  }

  /** With no digit, `-` or `.` there is no decimal token. */
  lemma {:induction false} FloatTokenAbsent(s: string)
    requires forall k :: 0 <= k < |s| ==> !StartsFloat(s[k])
    ensures FloatToken(s) == Err(FloatNotFound)
    decreases |s|
  {
    if s != [] {
      FloatTokenAbsent(s[1..]);
    }
  }

  /** The first digit, `-` or `.` starts the token, which is that byte and
      the digits and single dot after it. */
  lemma {:induction false} FloatTokenFirst(s: string, k: nat)
    requires k < |s| && StartsFloat(s[k])
    requires forall j :: 0 <= j < k ==> !StartsFloat(s[j])
    ensures FloatToken(s) == FloatAccept([s[k]] + FloatTail(s[k + 1..], s[k] == '.'))
    decreases k
  {
    if k > 0 {
      var t := s[1..];
      assert !StartsFloat(s[0]);
      assert FloatToken(s) == FloatToken(t);
      assert t[k - 1] == s[k] && t[k..] == s[k + 1..];
      FloatTokenFirst(t, k - 1);
    }
  }

  /** Concrete cases of the decimal scan: a second dot ends the token. */
  lemma FloatTokenSecondDot()
    ensures FloatToken(".7.aaaa") == Ok(".7")
  {
    assert ".7.aaaa"[1..] == "7.aaaa" && "7.aaaa"[1..] == ".aaaa";
    assert FloatTail(".aaaa", true) == [];
    assert FloatTail("7.aaaa", true) == "7";
    assert [".7.aaaa"[0]] + "7" == ".7";
  }

  /** The exponent of a scientific spelling is not part of the token. */
  lemma FloatTokenNoExponent()
    ensures FloatToken("3.14e+11") == Ok("3.14")
  {
    assert "3.14e+11"[1..] == ".14e+11" && ".14e+11"[1..] == "14e+11";
    assert "14e+11"[1..] == "4e+11" && "4e+11"[1..] == "e+11";
    assert FloatTail("e+11", true) == [];
    assert FloatTail("4e+11", true) == "4";
    assert FloatTail("14e+11", true) == "14";
    assert FloatTail(".14e+11", false) == ".14";
    assert ["3.14e+11"[0]] + ".14" == "3.14";
  }

  /** A `-` after the first byte ends the token; a lone dot or no candidate
      byte at all gives no token. */
  lemma FloatTokenEnds()
    ensures FloatToken("10-") == Ok("10")
    ensures FloatToken(".") == Err(FloatNotFound)
    ensures FloatToken("error") == Err(FloatNotFound)
  {
    assert "10-"[1..] == "0-" && "0-"[1..] == "-";
    assert FloatTail("-", false) == [];
    assert FloatTail("0-", false) == "0";
    assert ["10-"[0]] + "0" == "10";
    FloatTokenAbsent("error");
  }

  // ---------------------------------------------------------------------
  // The scans, as the package runs them

  /** `getIntString`: one left-to-right pass keeping the token's start `ind`
      and length `l`. */
  method GetIntString(s: string) returns (r: Result<string>)
    ensures r == IntToken(s)
  {
    var ind, l := 0, 0;
    var n := 0;
    while n < |s|
      invariant IntScanned(s, n, ind, l)
    {
      if IsDigit(s[n]) {
        if l == 0 {
          IntScanOpen(s, n);
          ind := n;
        } else {
          IntScanExtend(s, n, ind);
        }
        l := l + 1;
      } else if s[n] == '-' {
        if l == 0 {
          IntScanOpen(s, n);
          ind := n;
          l := l + 1;
        } else {
          IntScanStop(s, n, ind);
          break;
        }
      } else {
        if l == 0 && s[n] == '.' {
          // Go reads s[n + 1] here, which panics at the last byte.
          IntScanDot(s, n);
          if n + 1 == |s| {
            return Err(IndexOutOfRange);
          }
          if IsDigit(s[n + 1]) {
            return Ok("0");
          }
        }
        if l > 0 {
          IntScanStop(s, n, ind);
          break;
        }
        IntScanSkip(s, n);
      }
      n := n + 1;
    }
    if n == |s| {
      IntScanEnd(s, ind, l);
    }
    if l == 0 {
      return Err(IntNotFound);
    }
    return Ok(s[ind..ind + l]);
  }

  /** The state of the integer scan before byte `n`: no token yet, or a
      token of length `l` from `ind` whose digits may still continue. */
  ghost predicate IntScanned(s: string, n: int, ind: int, l: int) {
    && 0 <= n <= |s| && 0 <= l
    && (l == 0 ==> IntToken(s) == IntToken(s[n..]))
    && (l > 0 ==> 0 <= ind && ind + l == n && IntToken(s) == Ok(s[ind..n] + DigitPrefix(s[n..])))
  }

  /** A digit or `-` opens the token. */
  lemma IntScanOpen(s: string, n: int)
    requires 0 <= n < |s| && StartsInt(s[n])
    ensures IntToken(s[n..]) == Ok(s[n..n + 1] + DigitPrefix(s[n + 1..]))
  {
    assert s[n..][0] == s[n] && s[n..][1..] == s[n + 1..];
    assert s[n..n + 1] == [s[n]];
  }

  /** A digit extends an open token. */
  lemma IntScanExtend(s: string, n: int, ind: int)
    requires 0 <= ind <= n < |s| && IsDigit(s[n])
    requires IntToken(s) == Ok(s[ind..n] + DigitPrefix(s[n..]))
    ensures IntToken(s) == Ok(s[ind..n + 1] + DigitPrefix(s[n + 1..]))
  {
    DigitPrefixMove(s, n, ind);
  }

  /** Moving a digit from the digit run into the token keeps their join. */
  lemma DigitPrefixMove(s: string, n: int, ind: int)
    requires 0 <= ind <= n < |s| && IsDigit(s[n])
    ensures s[ind..n] + DigitPrefix(s[n..]) == s[ind..n + 1] + DigitPrefix(s[n + 1..])
  {
    var t := s[n..];
    assert t[0] == s[n] && t[1..] == s[n + 1..];
    var d := DigitPrefix(s[n + 1..]);
    assert DigitPrefix(t) == [s[n]] + d;
    assert s[ind..n + 1] == s[ind..n] + [s[n]];
    assert s[ind..n] + ([s[n]] + d) == s[ind..n + 1] + d;
  }

  /** Any other byte closes an open token. */
  lemma IntScanStop(s: string, n: int, ind: int)
    requires 0 <= ind <= n < |s| && !IsDigit(s[n])
    requires IntToken(s) == Ok(s[ind..n] + DigitPrefix(s[n..]))
    ensures IntToken(s) == Ok(s[ind..n])
  {
    var t := s[n..];
    assert t[0] == s[n];
    assert DigitPrefix(t) == [];
    assert s[ind..n] + [] == s[ind..n];
  }

  /** Before any token, a dot decides the scan when it is the last byte or
      is followed by a digit. */
  lemma IntScanDot(s: string, n: int)
    requires 0 <= n < |s| && s[n] == '.'
    ensures n + 1 == |s| ==> IntToken(s[n..]) == Err(IndexOutOfRange)
    ensures n + 1 < |s| && IsDigit(s[n + 1]) ==> IntToken(s[n..]) == Ok("0")
  {
    var t := s[n..];
    assert t[0] == s[n] && |t| == |s| - n;
    if n + 1 < |s| {
      assert t[1] == s[n + 1];
    }
  }

  /** Before any token, any other byte is skipped. */
  lemma IntScanSkip(s: string, n: int)
    requires 0 <= n < |s| && !StartsInt(s[n])
    requires !(s[n] == '.' && (n + 1 == |s| || IsDigit(s[n + 1])))
    ensures IntToken(s[n..]) == IntToken(s[n + 1..])
  {
    assert s[n..][0] == s[n] && s[n..][1..] == s[n + 1..];
    assert s[n..n + 1] == [s[n]];
  }

  /** The end of the string closes the token, or leaves none. */
  lemma IntScanEnd(s: string, ind: int, l: int)
    requires IntScanned(s, |s|, ind, l)
    ensures IntToken(s) == if l == 0 then Err(IntNotFound) else Ok(s[ind..ind + l])
  {
    var e := s[|s|..];
    assert e == [];
    if l > 0 {
      assert DigitPrefix(e) == [];
      assert s[ind..|s|] + DigitPrefix(e) == s[ind..ind + l];
    } else {
      assert IntToken(e) == Err(IntNotFound);
    }
  }

  /** `getFloatString`: the same pass, also counting dots in `c`. */
  method GetFloatString(s: string) returns (r: Result<string>)
    ensures r == FloatToken(s)
  {
    var c, ind, l := 0, 0, 0;
    var n := 0;
    while n < |s|
      invariant FloatScanned(s, n, c, ind, l)
    {
      if IsDigit(s[n]) {
        FloatScanTake(s, n, c, ind, l);
        if l == 0 {
          ind := n;
        }
        l := l + 1;
      } else if s[n] == '-' {
        if l == 0 {
          FloatScanTake(s, n, c, ind, l);
          ind := n;
          l := l + 1;
        } else {
          FloatScanStop(s, n, c > 0, ind);
          break;
        }
      } else if s[n] == '.' {
        if c == 0 {
          FloatScanTake(s, n, c, ind, l);
        } else {
          FloatScanStop(s, n, c > 0, ind);
        }
        if l == 0 {
          ind := n;
        }
        if c > 0 {
          break;
        }
        l := l + 1;
        c := c + 1;
      } else {
        if l > 0 {
          FloatScanStop(s, n, c > 0, ind);
          break;
        }
        FloatScanSkip(s, n, c, ind, l);
      }
      n := n + 1;
    }
    if n == |s| {
      FloatScanEnd(s, c, ind, l);
    }
    if l == 0 || s[ind..ind + l] == "." {
      return Err(FloatNotFound);
    }
    return Ok(s[ind..ind + l]);
  }

  /** The state of the decimal scan before byte `n`: no token yet, or a
      token of length `l` from `ind` whose completion is still ahead. */
  ghost predicate FloatScanned(s: string, n: int, c: int, ind: int, l: int) {
    && 0 <= n <= |s| && 0 <= c <= 1 && 0 <= l
    && (l == 0 ==> c == 0 && FloatToken(s) == FloatToken(s[n..]))
    && (l > 0 ==> 0 <= ind && ind + l == n && FloatToken(s) == FloatAccept(s[ind..n] + FloatTail(s[n..], c > 0)))
  }

  /** A digit, a leading `-` or a first dot joins the token. */
  lemma FloatScanTake(s: string, n: int, c: int, ind: int, l: int)
    requires FloatScanned(s, n, c, ind, l) && n < |s|
    requires IsDigit(s[n]) || (s[n] == '-' && l == 0) || (s[n] == '.' && c == 0)
    ensures FloatScanned(s, n + 1, if s[n] == '.' then 1 else c, if l == 0 then n else ind, l + 1)
  {
    if l == 0 {
      FloatScanOpen(s, n);
    } else {
      FloatScanExtend(s, n, c > 0, ind);
    }
  }

  /** The byte that opens the token begins it; a dot opened it already. */
  lemma FloatScanOpen(s: string, n: int)
    requires 0 <= n < |s| && StartsFloat(s[n])
    ensures FloatToken(s[n..]) == FloatAccept(s[n..n + 1] + FloatTail(s[n + 1..], s[n] == '.'))
  {
    assert s[n..][0] == s[n] && s[n..][1..] == s[n + 1..];
    assert s[n..n + 1] == [s[n]];
  }

  /** A digit, or a first dot, moves from the tail into the token. */
  lemma FloatScanExtend(s: string, n: int, dotSeen: bool, ind: int)
    requires 0 <= ind <= n < |s|
    requires FloatToken(s) == FloatAccept(s[ind..n] + FloatTail(s[n..], dotSeen))
    requires IsDigit(s[n]) || (s[n] == '.' && !dotSeen)
    ensures FloatToken(s) == FloatAccept(s[ind..n + 1] + FloatTail(s[n + 1..], dotSeen || s[n] == '.'))
  {
    FloatTailMove(s, n, dotSeen, ind);
  }

  /** Moving a byte the tail takes into the token keeps their join. */
  lemma FloatTailMove(s: string, n: int, dotSeen: bool, ind: int)
    requires 0 <= ind <= n < |s|
    requires IsDigit(s[n]) || (s[n] == '.' && !dotSeen)
    ensures s[ind..n] + FloatTail(s[n..], dotSeen) == s[ind..n + 1] + FloatTail(s[n + 1..], dotSeen || s[n] == '.')
  {
    var d := FloatTail(s[n + 1..], dotSeen || s[n] == '.');
    FloatTailCons(s[n..], dotSeen);
    assert s[n..][1..] == s[n + 1..];
    assert s[n..][0] == s[n];
    assert s[ind..n + 1] == s[ind..n] + [s[n]];
    assert s[ind..n] + ([s[n]] + d) == s[ind..n + 1] + d;
  }

  /** A tail that takes its first byte is that byte and the tail after it. */
  lemma FloatTailCons(t: string, dotSeen: bool)
    requires t != [] && (IsDigit(t[0]) || (t[0] == '.' && !dotSeen))
    ensures FloatTail(t, dotSeen) == [t[0]] + FloatTail(t[1..], dotSeen || t[0] == '.')
  {
  }

  /** A byte that cannot start a token is skipped while none has started. */
  lemma FloatScanSkip(s: string, n: int, c: int, ind: int, l: int)
    requires FloatScanned(s, n, c, ind, l) && n < |s|
    requires l == 0 && !StartsFloat(s[n])
    ensures FloatScanned(s, n + 1, c, ind, l)
  {
    assert s[n..][0] == s[n] && s[n..][1..] == s[n + 1..];
    assert s[n..n + 1] == [s[n]];
  }

  /** A `-` inside the token, a second dot or any other byte ends it. */
  lemma FloatScanStop(s: string, n: int, dotSeen: bool, ind: int)
    requires 0 <= ind <= n < |s|
    requires FloatToken(s) == FloatAccept(s[ind..n] + FloatTail(s[n..], dotSeen))
    requires !(IsDigit(s[n]) || (s[n] == '.' && !dotSeen))
    ensures FloatToken(s) == FloatAccept(s[ind..n])
  {
    var t := s[n..];
    assert t[0] == s[n];
    assert FloatTail(t, dotSeen) == [];
    assert s[ind..n] + [] == s[ind..n];
  }

  /** The end of the string ends the token, or leaves none. */
  lemma FloatScanEnd(s: string, c: int, ind: int, l: int)
    requires FloatScanned(s, |s|, c, ind, l)
    ensures FloatToken(s) == if l == 0 then Err(FloatNotFound) else FloatAccept(s[ind..ind + l])
  {
    if l > 0 {
      FloatTailAtEnd(s, ind, l, c > 0);
    } else {
      assert s[|s|..] == [];
    }
  }

  /** At the end of the string the tail is empty. */
  lemma FloatTailAtEnd(s: string, ind: int, l: int, dotSeen: bool)
    requires 0 <= ind && 0 <= l && ind + l == |s|
    ensures s[ind..|s|] + FloatTail(s[|s|..], dotSeen) == s[ind..ind + l]
  {
    assert s[|s|..] == [];
    assert s[ind..|s|] + [] == s[ind..ind + l];
  }

  // ---------------------------------------------------------------------
  // Typed values of a segment

  /** The segment, then its first integer token, then that token parsed at
      the width; the first stage that fails decides the error. */
  function IntAt(path: string, i: int, w: Width): (r: Result<int>)
    ensures r.Ok? ==> Segment(path, i).Ok? && InRange(r.value, w)
    ensures r.Err? ==> r.error in {SegmentNotFound, IntNotFound, IndexOutOfRange, Unparsable}
  {
    match Segment(path, i)
    case Err(e) => Err(e)
    case Ok(seg) =>
      match IntToken(seg)
      case Err(e) => Err(e)
      case Ok(tok) => ParseInt(tok, w)
  }

  /** A segment spelling an in-range integer yields that integer. */
  lemma IntAtFormatted(path: string, i: int, w: Width, v: int)
    requires Segment(path, i) == Ok(FormatInt(v))
    requires InRange(v, w)
    ensures IntAt(path, i, w) == Ok(v)
  {
    IntTokenOfFormatted(v);
    ParseFormatInt(v, w);
  }

  /** An integer surrounded by letters, as in `"nn4nn"`, is still found. */
  lemma IntAtEmbedded(path: string, i: int, w: Width, junk: string, v: int, rest: string)
    requires Segment(path, i) == Ok(junk + FormatInt(v) + rest)
    requires forall k :: 0 <= k < |junk| ==> !StartsInt(junk[k]) && junk[k] != '.'
    requires rest == [] || !IsDigit(rest[0])
    requires InRange(v, w)
    ensures IntAt(path, i, w) == Ok(v)
  {
    IntTokenEmbedded(junk, v, rest);
    ParseFormatInt(v, w);
  }

  /** A segment spelling an integer outside the width is refused. */
  lemma IntAtOutOfRange(path: string, i: int, w: Width, v: int)
    requires Segment(path, i) == Ok(FormatInt(v))
    requires !InRange(v, w)
    ensures IntAt(path, i, w) == Err(Unparsable)
  {
    IntTokenOfFormatted(v);
    ParseFormatIntOutOfRange(v, w);
  }

  /** The raw segment parsed as a boolean, without numeric scanning. */
  function BoolAt(path: string, i: int): (r: Result<bool>)
    ensures r.Ok? ==> Segment(path, i).Ok? && Segment(path, i).value in (if r.value then TrueTokens else FalseTokens)
    ensures r.Err? ==> r.error in {SegmentNotFound, Unparsable}
  {
    match Segment(path, i)
    case Err(e) => Err(e)
    case Ok(seg) => ParseBool(seg)
  }

  lemma BoolAtFormatted(path: string, i: int, b: bool)
    requires Segment(path, i) == Ok(FormatBool(b))
    ensures BoolAt(path, i) == Ok(b)
  {
    ParseFormatBool(b);
  }

  /** The segment, then its first decimal token, then `parseFloat` (standing
      for `strconv.ParseFloat`) at `bits`. */
  function FloatAt(path: string, i: int, bits: nat, parseFloat: (string, nat) -> Option<real>): (r: Result<real>)
    ensures r.Ok? ==> Segment(path, i).Ok? && FloatToken(Segment(path, i).value).Ok?
    ensures r.Err? ==> r.error in {SegmentNotFound, FloatNotFound, Unparsable}
  {
    match Segment(path, i)
    case Err(e) => Err(e)
    case Ok(seg) =>
      match FloatToken(seg)
      case Err(e) => Err(e)
      case Ok(tok) => FloatVerdict(parseFloat(tok, bits))
  }

  /** The float parser only ever sees a well-formed decimal token, and the
      result is the parser's verdict on it. */
  lemma FloatAtToken(path: string, i: int, bits: nat, parseFloat: (string, nat) -> Option<real>)
    requires FloatAt(path, i, bits, parseFloat).Ok?
    ensures Segment(path, i).Ok? && FloatToken(Segment(path, i).value).Ok?
    ensures var t := FloatToken(Segment(path, i).value).value;
      && parseFloat(t, bits) == Some(FloatAt(path, i, bits, parseFloat).value)
      && t != "." && forall k :: 1 <= k < |t| ==> IsDigit(t[k]) || t[k] == '.'
  {
    FloatTokenShape(Segment(path, i).value);
  }

  // ---------------------------------------------------------------------
  // The Parth object

  /** Holds a path; nothing writes the path after construction. */
  class Parth {
    const path: string

    /** `New`. */
    constructor New(path: string)
      ensures this.path == path
    {
      this.path := path;
    }

    /** `String`: one pass over the bytes keeping a segment counter `c` and
        the bounds `ind0`/`ind1` of segment `i`. */
    method String(i: int) returns (r: Result<string>)
      ensures r == Segment(path, i)
    {
      var c, ind0, ind1 := 0, 0, 0;
      var n := 0;
      while n < |path|
        invariant ind1 == 0
        invariant Scanning(path, i, n, c, ind0)
      {
        if path[n] == Slash {
          if c == i {
            if n + 1 < |path| && path[n + 1] != Slash {
              ind0 := n + 1;
            } else {
              ExitEmpty(path, i, n, c, ind0);
              break;
            }
          }
          if c > i {
            ind1 := n;
            ExitAtSlash(path, i, n, c, ind0);
            break;
          }
          StepSlash(path, i, n, c, ind0);
          c := c + 1;
        } else if n == 0 {
          StepFirst(path, i, ind0);
          if c == i {
            ind0 := n;
          }
          c := c + 1;
        } else if n == |path| - 1 {
          if c > i {
            ind1 := n + 1;
          }
          ExitAtEnd(path, i, n, c, ind0);
          break;
        } else {
          StepInside(path, i, n, c, ind0);
        }
        n := n + 1;
      }
      if n == |path| {
        ExitEndOfPath(path, i, c, ind0);
      }
      if i < 0 || ind1 == 0 {
        return Err(SegmentNotFound);
      }
      return Ok(path[ind0..ind1]);
    }

    /** The three stages shared by the integer accessors: the segment, its
        integer token, and `strconv.ParseInt` at the width. */
    method IntOf(i: int, w: Width) returns (r: Result<int>)
      ensures r == IntAt(path, i, w)
    {
      var s := String(i);
      if s.Err? {
        return Err(s.error);
      }
      var t := GetIntString(s.value);
      if t.Err? {
        return Err(t.error);
      }
      return ParseInt(t.value, w);
    }

    /** `Int64`. */
    method Int64(i: int) returns (r: Result<int>)
      ensures r == IntAt(path, i, W64)
      ensures r.Ok? ==> -0x8000_0000_0000_0000 <= r.value < 0x8000_0000_0000_0000
    {
      r := IntOf(i, W64);
      if r.Ok? {
        InRangeBounds(r.value, W64);
      }
    }

    /** `Int32`: the conversion to `int32` keeps the value, which is in range. */
    method Int32(i: int) returns (r: Result<int>)
      ensures r == IntAt(path, i, W32)
      ensures r.Ok? ==> -0x8000_0000 <= r.value < 0x8000_0000
    {
      r := IntOf(i, W32);
      if r.Ok? {
        InRangeBounds(r.value, W32);
      }
    }

    /** `Int16`. */
    method Int16(i: int) returns (r: Result<int>)
      ensures r == IntAt(path, i, W16)
      ensures r.Ok? ==> -0x8000 <= r.value < 0x8000
    {
      r := IntOf(i, W16);
      if r.Ok? {
        InRangeBounds(r.value, W16);
      }
    }

    /** `Int8`. */
    method Int8(i: int) returns (r: Result<int>)
      ensures r == IntAt(path, i, W8)
      ensures r.Ok? ==> -0x80 <= r.value < 0x80
    {
      r := IntOf(i, W8);
      if r.Ok? {
        InRangeBounds(r.value, W8);
      }
    }

    /** `Int`: `strconv.ParseInt` with bit size 0, the platform's `int`. */
    method Int(i: int) returns (r: Result<int>)
      ensures r == IntAt(path, i, WNative)
      ensures r.Ok? ==> -0x8000_0000_0000_0000 <= r.value < 0x8000_0000_0000_0000
    {
      r := IntOf(i, WNative);
      if r.Ok? {
        InRangeBounds(r.value, WNative);
      }
    }

    /** `Bool`: the whole segment goes to `strconv.ParseBool`. */
    method Bool(i: int) returns (r: Result<bool>)
      ensures r == BoolAt(path, i)
    {
      var s := String(i);
      if s.Err? {
        return Err(s.error);
      }
      return ParseBool(s.value);
    }

    /** `Float64`, with `parseFloat` standing for `strconv.ParseFloat`. */
    method Float64(i: int, parseFloat: (string, nat) -> Option<real>) returns (r: Result<real>)
      ensures r == FloatAt(path, i, 64, parseFloat)
    {
      r := FloatOf(i, 64, parseFloat);
    }

    /** `Float32`: as `Float64` with bit size 32. */
    method Float32(i: int, parseFloat: (string, nat) -> Option<real>) returns (r: Result<real>)
      ensures r == FloatAt(path, i, 32, parseFloat)
    {
      r := FloatOf(i, 32, parseFloat);
    }

    /** The three stages shared by the decimal accessors. */
    method FloatOf(i: int, bits: nat, parseFloat: (string, nat) -> Option<real>) returns (r: Result<real>)
      ensures r == FloatAt(path, i, bits, parseFloat)
    {
      var s := String(i);
      if s.Err? {
        return Err(s.error);
      }
      var t := GetFloatString(s.value);
      if t.Err? {
        return Err(t.error);
      }
      var v := parseFloat(t.value, bits);
      if v.None? {
        return Err(Unparsable);
      }
      return Ok(v.value);
    }
  }

  // ---------------------------------------------------------------------
  // The scan in `Parth.String`, step by step

  /** The state of the scan before byte `n`: `c` counts the segments opened
      so far; once segment `i` is open, it starts at `ind0` and is either
      non-empty already or about to receive the non-slash byte at `n`. */
  ghost predicate Scanning(path: string, i: int, n: int, c: int, ind0: int) {
    && 0 <= n <= |path|
    && (n == 0 ==> c == 0)
    && (0 < n ==> Lead(path) <= n && c == |Split(path[Lead(path)..n])|)
    && (0 <= i ==> c <= i + 1)
    && (0 <= i && c == i + 1 ==>
          && Lead(path) <= ind0 <= n
          && path[ind0..n] == Split(path[Lead(path)..n])[i]
          && (ind0 < n || (n < |path| && path[n] != Slash)))
    && (n == |path| && 1 < n ==> path[n - 1] == Slash)
  }

  /** A slash that neither closes segment `i` nor opens an empty one. */
  lemma StepSlash(path: string, i: int, n: int, c: int, ind0: int)
    requires Scanning(path, i, n, c, ind0)
    requires n < |path| && path[n] == Slash && c <= i
    requires c == i ==> n + 1 < |path| && path[n + 1] != Slash
    ensures Scanning(path, i, n + 1, c + 1, if c == i then n + 1 else ind0)
  {
    var lead := Lead(path);
    if n > 0 {
      assert path[lead..n + 1] == path[lead..n] + [path[n]];
      SplitSnoc(path[lead..n], path[n]);
    } else {
      assert path[lead..1] == [];
    }
  }

  /** The first byte is not a slash: it opens segment 0. */
  lemma StepFirst(path: string, i: int, ind0: int)
    requires Scanning(path, i, 0, 0, ind0)
    requires 0 < |path| && path[0] != Slash
    ensures Scanning(path, i, 1, 1, if i == 0 then 0 else ind0)
  {
    assert Lead(path) == 0;
    assert path[0..1] == [path[0]];
    SplitNoSlash([path[0]]);
  }

  /** A non-slash byte inside the path extends the open segment. */
  lemma StepInside(path: string, i: int, n: int, c: int, ind0: int)
    requires Scanning(path, i, n, c, ind0)
    requires 0 < n < |path| - 1 && path[n] != Slash
    ensures Scanning(path, i, n + 1, c, ind0)
  {
    var lead := Lead(path);
    assert path[lead..n + 1] == path[lead..n] + [path[n]];
    SplitSnoc(path[lead..n], path[n]);
    if 0 <= i && c == i + 1 {
      assert path[ind0..n + 1] == path[ind0..n] + [path[n]];
    }
  }

  /** Segment `i` begins at a slash followed by a slash or by the end: it is empty. */
  lemma ExitEmpty(path: string, i: int, n: int, c: int, ind0: int)
    requires Scanning(path, i, n, c, ind0)
    requires n < |path| && path[n] == Slash && c == i
    requires !(n + 1 < |path| && path[n + 1] != Slash)
    ensures Segment(path, i) == Err(SegmentNotFound)
  {
    var lead := Lead(path);
    var s := path[lead..];
    SplitFirstEmpty(path[n + 1..]);
    if n == 0 {
      assert s == path[n + 1..];
    } else {
      SplitAt(s, n - lead);
      assert s[..n - lead] == path[lead..n];
      assert s[n - lead + 1..] == path[n + 1..];
    }
  }

  /** The slash after segment `i` closes it. */
  lemma ExitAtSlash(path: string, i: int, n: int, c: int, ind0: int)
    requires Scanning(path, i, n, c, ind0)
    requires n < |path| && path[n] == Slash && c > i
    ensures 0 <= i ==> 0 < n && ind0 < n && Segment(path, i) == Ok(path[ind0..n])
  {
    if 0 <= i {
      var lead := Lead(path);
      var s := path[lead..];
      SplitAt(s, n - lead);
      assert s[..n - lead] == path[lead..n];
    }
  }

  /** The last byte is not a slash: it closes the last segment. */
  lemma ExitAtEnd(path: string, i: int, n: int, c: int, ind0: int)
    requires Scanning(path, i, n, c, ind0)
    requires 0 < n && n == |path| - 1 && path[n] != Slash
    ensures 0 <= i && c > i ==> ind0 <= n && Segment(path, i) == Ok(path[ind0..n + 1])
    ensures 0 <= i && c <= i ==> Segment(path, i) == Err(SegmentNotFound)
  {
    var lead := Lead(path);
    var x := path[n];
    assert path[lead..] == path[lead..n] + [x];
    SplitSnocLast(path[lead..n], x);
    if 0 <= i && c > i {
      assert path[ind0..n + 1] == path[ind0..n] + [x];
    }
  }

  /** The pass ran to the end without closing segment `i`. */
  lemma ExitEndOfPath(path: string, i: int, c: int, ind0: int)
    requires Scanning(path, i, |path|, c, ind0)
    ensures Segment(path, i) == Err(SegmentNotFound)
  {
    var n := |path|;
    if 0 < n {
      assert path[Lead(path)..n] == path[Lead(path)..];
    }
  }
}
