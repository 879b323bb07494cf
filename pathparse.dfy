/** Package pathparse: the segments of a path split once up front, read by
    index through a parser that remembers the first error. After an error
    every accessor returns its zero value and leaves the error in place. */
module PathParse {
  import opened Results
  import opened PathStrings
  import opened Strconv
  import Parth

  // ---------------------------------------------------------------------
  // The stored segments and what one read of them gives

  /** What `New` stores: every leading slash trimmed, then split at each
      slash. Gluing the segments back with slashes gives the trimmed path. */
  function SegmentsOf(path: string): (r: seq<string>)
    ensures |r| >= 1
    ensures forall k :: 0 <= k < |r| ==> Slash !in r[k]
    ensures Join(r) == TrimLeftSlashes(path)
  {
    JoinSplit(TrimLeftSlashes(path));
    SplitPieces(TrimLeftSlashes(path));
    Split(TrimLeftSlashes(path))
  }

  /** Segment `i`, or `OutOfBounds` for an index outside the segments. An
      empty segment is a value, not an error. */
  function Field(segments: seq<string>, i: int): (r: Result<string>)
    ensures r.Ok? <==> 0 <= i < |segments|
    ensures r.Ok? ==> r.value == segments[i]
    ensures r.Err? ==> r.error == OutOfBounds
  {
    if 0 > i || i >= |segments| then Err(OutOfBounds) else Ok(segments[i])
  }

  /** The whole segment parsed as a decimal integer of the width. */
  function IntField(segments: seq<string>, i: int, w: Width): (r: Result<int>)
    ensures r.Ok? ==> 0 <= i < |segments| && InRange(r.value, w)
    ensures r.Err? ==> r.error in {OutOfBounds, Unparsable}
  {
    match Field(segments, i)
    case Err(e) => Err(e)
    case Ok(s) => ParseInt(s, w)
  }

  /** The whole segment parsed as a boolean. */
  function BoolField(segments: seq<string>, i: int): (r: Result<bool>)
    ensures r.Ok? ==> 0 <= i < |segments| && segments[i] in (if r.value then TrueTokens else FalseTokens)
    ensures r.Err? ==> r.error in {OutOfBounds, Unparsable}
  {
    match Field(segments, i)
    case Err(e) => Err(e)
    case Ok(s) => ParseBool(s)
  }

  /** The whole segment given to `parseFloat`, standing for
      `strconv.ParseFloat`, at `bits`. */
  function FloatField(segments: seq<string>, i: int, bits: nat, parseFloat: (string, nat) -> Option<real>): (r: Result<real>)
    ensures r.Ok? ==> 0 <= i < |segments| && parseFloat(segments[i], bits) == Some(r.value)
    ensures r.Err? ==> r.error in {OutOfBounds, Unparsable}
  {
    match Field(segments, i)
    case Err(e) => Err(e)
    case Ok(s) => FloatVerdict(parseFloat(s, bits))
  }

  /** One accessor call under the sticky error: with an error already
      recorded the call returns `zero` and keeps that error; otherwise it
      returns the read's value (or `zero`) and records the read's error. */
  ghost predicate Sticky<T>(before: Option<Error>, after: Option<Error>, v: T, zero: T, r: Result<T>): (ok: bool)
    ensures ok ==> (after.None? <==> before.None? && r.Ok?)
    ensures ok && after.None? ==> v == r.value
    ensures ok && after.Some? ==> v == zero
  {
    if before.Some? then after == before && v == zero
    else after == r.Failure() && v == r.GetOr(zero)
  }

  /** Over two accessor calls on a fresh parser, `Err` reports the first
      read that failed, and a later failure never replaces it. */
  lemma StickyFirstError<T, U>(e1: Option<Error>, e2: Option<Error>, v1: T, z1: T, r1: Result<T>, v2: U, z2: U, r2: Result<U>)
    requires Sticky(None, e1, v1, z1, r1) && Sticky(e1, e2, v2, z2, r2)
    ensures e2 == if r1.Err? then Some(r1.error) else r2.Failure()
    ensures r1.Err? ==> v2 == z2
  {
  }

  // ---------------------------------------------------------------------
  // Facts about the reads

  /** Segments without slashes, the first one non-empty, are exactly what a
      parser of their join stores. */
  lemma SegmentsOfJoin(xs: seq<string>)
    requires |xs| >= 1 && xs[0] != []
    requires forall k :: 0 <= k < |xs| ==> Slash !in xs[k]
    ensures SegmentsOf(Join(xs)) == xs
  {
    JoinSlice(xs, 0);
    var j := Join(xs);
    assert j[0] == xs[0][0];
    assert TrimLeftSlashes(j) == j;
    SplitJoin(xs);
  }

  /** However many slashes lead the path, they never produce a segment. */
  lemma {:induction false} LeadingSlashesIgnored(path: string)
    ensures SegmentsOf([Slash] + path) == SegmentsOf(path)
  {
    assert ([Slash] + path)[1..] == path;
  }

  /** A segment spelling an in-range integer reads as that integer. */
  lemma IntFieldFormatted(segments: seq<string>, i: int, w: Width, v: int)
    requires 0 <= i < |segments| && segments[i] == FormatInt(v)
    requires InRange(v, w)
    ensures IntField(segments, i, w) == Ok(v)
  {
    ParseFormatInt(v, w);
  }

  /** Unlike the lenient scan of package parth, a segment with anything but
      an optional sign and digits is refused. */
  lemma IntFieldStrict(segments: seq<string>, i: int, w: Width, k: nat)
    requires 0 <= i < |segments|
    requires 0 < k < |segments[i]| && !IsDigit(segments[i][k])
    ensures IntField(segments, i, w) == Err(Unparsable)
  {
  }

  /** A segment spelling a boolean reads as that boolean. */
  lemma BoolFieldFormatted(segments: seq<string>, i: int, b: bool)
    requires 0 <= i < |segments| && segments[i] == FormatBool(b)
    ensures BoolField(segments, i) == Ok(b)
  {
    ParseFormatBool(b);
  }

  /** When the path does not start with two slashes, both packages see the
      same segments: parth skips one leading slash, this package all of them. */
  lemma {:induction false} SegmentsAgree(path: string)
    requires !(|path| >= 2 && path[0] == Slash && path[1] == Slash)
    ensures Parth.Segments(path) == SegmentsOf(path)
  {
    if |path| >= 1 && path[0] == Slash {
      assert path == [Slash] + path[1..];
      LeadingSlashesIgnored(path[1..]);
      assert TrimLeftSlashes(path[1..]) == path[1..];
    }
  }

  // ---------------------------------------------------------------------
  // The parser object

  class Parser {
    /** The segments, fixed by `New`. */
    const segments: seq<string>
    /** The first error met, or None. */
    var err: Option<Error>

    /** `New`: splits the path once; no error yet. */
    constructor New(path: string)
      ensures segments == SegmentsOf(path)
      ensures err == None
    {
      segments := SegmentsOf(path);
      err := None;
    }

    /** `Err`: the recorded error. */
    method Err() returns (e: Option<Error>)
      ensures e == err
    {
      return err;
    }

    /** `String`: segment `i`, or `""` with `OutOfBounds` recorded. */
    method String(i: int) returns (v: string)
      modifies this
      ensures Sticky(old(err), err, v, "", Field(segments, i))
    {
      if err.Some? {
        return "";
      }
      if 0 > i || i >= |segments| {
        err := Some(OutOfBounds);
        return "";
      }
      return segments[i];
    }

    /** The integer accessors' shared steps: the segment, then
        `strconv.ParseInt` at the width. */
    method IntOf(i: int, w: Width) returns (v: int)
      modifies this
      ensures Sticky(old(err), err, v, 0, IntField(segments, i, w))
      ensures InRange(v, w)
    {
      var s := String(i);
      if err.Some? {
        return 0;
      }
      var r := ParseInt(s, w);
      if r.Err? {
        err := Some(r.error);
        return 0;
      }
      return r.value;
    }

    /** `Int64`. */
    method Int64(i: int) returns (v: int)
      modifies this
      ensures Sticky(old(err), err, v, 0, IntField(segments, i, W64))
      ensures -0x8000_0000_0000_0000 <= v < 0x8000_0000_0000_0000
    {
      v := IntOf(i, W64);
      InRangeBounds(v, W64);
    }

    /** `Int32`: the conversion to `int32` keeps the value, which is in range. */
    method Int32(i: int) returns (v: int)
      modifies this
      ensures Sticky(old(err), err, v, 0, IntField(segments, i, W32))
      ensures -0x8000_0000 <= v < 0x8000_0000
    {
      v := IntOf(i, W32);
      InRangeBounds(v, W32);
    }

    /** `Int16`. */
    method Int16(i: int) returns (v: int)
      modifies this
      ensures Sticky(old(err), err, v, 0, IntField(segments, i, W16))
      ensures -0x8000 <= v < 0x8000
    {
      v := IntOf(i, W16);
      InRangeBounds(v, W16);
    }

    /** `Int8`. */
    method Int8(i: int) returns (v: int)
      modifies this
      ensures Sticky(old(err), err, v, 0, IntField(segments, i, W8))
      ensures -0x80 <= v < 0x80
    {
      v := IntOf(i, W8);
      InRangeBounds(v, W8);
    }

    /** `Int`: bit size 0, the platform's `int`. */
    method Int(i: int) returns (v: int)
      modifies this
      ensures Sticky(old(err), err, v, 0, IntField(segments, i, WNative))
      ensures -0x8000_0000_0000_0000 <= v < 0x8000_0000_0000_0000
    {
      v := IntOf(i, WNative);
      InRangeBounds(v, WNative);
    }

    /** `Bool`. */
    method Bool(i: int) returns (v: bool)
      modifies this
      ensures Sticky(old(err), err, v, false, BoolField(segments, i))
    {
      var s := String(i);
      if err.Some? {
        return false;
      }
      var r := ParseBool(s);
      if r.Err? {
        err := Some(r.error);
        return false;
      }
      return r.value;
    }

    /** The decimal accessors' shared steps: the segment, then `parseFloat`. */
    method FloatOf(i: int, bits: nat, parseFloat: (string, nat) -> Option<real>) returns (v: real)
      modifies this
      ensures Sticky(old(err), err, v, 0.0, FloatField(segments, i, bits, parseFloat))
    {
      var s := String(i);
      if err.Some? {
        return 0.0;
      }
      var r := parseFloat(s, bits);
      if r.None? {
        err := Some(Unparsable);
        return 0.0;
      }
      return r.value;
    }

    /** `Float64`. */
    method Float64(i: int, parseFloat: (string, nat) -> Option<real>) returns (v: real)
      modifies this
      ensures Sticky(old(err), err, v, 0.0, FloatField(segments, i, 64, parseFloat))
    {
      v := FloatOf(i, 64, parseFloat);
    }

    /** `Float32`. */
    method Float32(i: int, parseFloat: (string, nat) -> Option<real>) returns (v: real)
      modifies this
      ensures Sticky(old(err), err, v, 0.0, FloatField(segments, i, 32, parseFloat))
    {
      v := FloatOf(i, 32, parseFloat);
    }
  }
}
