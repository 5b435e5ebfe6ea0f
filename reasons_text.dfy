/**
 * The `reasons` column: the reason codes joined with `", ".join`, and the
 * inverse reading with Python's `str.split(", ")`.
 */
module ReasonsText {
  import opened Wrappers
  import opened Utf8
  import opened Classifier

  const Separator: string := ", "

  /** `", ".join(parts)`. */
  function Join(parts: seq<string>): string
  {
    if parts == [] then ""
    else if |parts| == 1 then parts[0]
    else parts[0] + Separator + Join(parts[1..])
  }

  /** `s.split(", ")` with `cur` already read into the first part. */
  function SplitFrom(s: string, cur: string): (parts: seq<string>)
    ensures |parts| >= 1
    decreases |s|
  {
    if s == [] then [cur]
    else if |s| >= 2 && s[0] == ',' && s[1] == ' ' then [cur] + SplitFrom(s[2..], "")
    else SplitFrom(s[1..], cur + [s[0]])
  }

  /** `s.split(", ")`: never empty; the empty string splits into one empty part. */
  function Split(s: string): (parts: seq<string>)
    ensures |parts| >= 1
  {
    SplitFrom(s, "")
  }

  predicate CommaFree(x: string)
  {
    ',' !in x
  }

  /** Text without a comma is read into the current part. */
  lemma {:induction false} SplitFromPlain(x: string, rest: string, cur: string)
    requires CommaFree(x)
    ensures SplitFrom(x + rest, cur) == SplitFrom(rest, cur + x)
    decreases |x|
  {
    if x == [] {
      assert x + rest == rest && cur + x == cur;
    } else {
      assert (x + rest)[0] == x[0] && (x + rest)[1..] == x[1..] + rest;
      SplitFromPlain(x[1..], rest, cur + [x[0]]);
      assert cur + [x[0]] + x[1..] == cur + x;
    }
  }

  lemma {:induction false} SplitFromJoin(parts: seq<string>, cur: string)
    requires |parts| >= 1 && forall k :: 0 <= k < |parts| ==> CommaFree(parts[k])
    ensures SplitFrom(Join(parts), cur) == [cur + parts[0]] + parts[1..]
    decreases |parts|
  {
    if |parts| == 1 {
      SplitFromPlain(parts[0], "", cur);
      assert parts[0] + "" == parts[0];
    } else {
      var tail := Join(parts[1..]);
      assert Join(parts) == parts[0] + (Separator + tail);
      SplitFromPlain(parts[0], Separator + tail, cur);
      assert (Separator + tail)[2..] == tail;
      SplitFromJoin(parts[1..], "");
      assert "" + parts[1..][0] == parts[1];
      assert [parts[1]] + parts[1..][1..] == parts[1..];
    }
  }

  /** Splitting a join of one or more comma-free parts gives the parts back. */
  lemma SplitJoin(parts: seq<string>)
    requires |parts| >= 1 && forall k :: 0 <= k < |parts| ==> CommaFree(parts[k])
    ensures Split(Join(parts)) == parts
  {
    SplitFromJoin(parts, "");
    assert "" + parts[0] == parts[0];
    assert [parts[0]] + parts[1..] == parts;
  }

  /** The empty list joins to the empty string, which splits into one empty part, not into no parts. */
  lemma SplitJoinEmpty()
    ensures Split(Join([])) == [""]
  {
  }

  /** The codes of a reason list, in order. */
  function Codes(rs: seq<Reason>): (cs: seq<string>)
    ensures |cs| == |rs|
    ensures forall k :: 0 <= k < |rs| ==> cs[k] == Code(rs[k])
  {
    if rs == [] then [] else [Code(rs[0])] + Codes(rs[1..])
  }

  /** The `reasons` column value of a reason list. */
  function ReasonsString(rs: seq<Reason>): string
  {
    Join(Codes(rs))
  }

  /** The reason a code names, if any. */
  function DecodeReason(c: string): (r: Option<Reason>)
    ensures r.Some? ==> Code(r.value) == c
  {
    if c == "high_temp" then Some(HighTemp)
    else if c == "low_moisture" then Some(LowMoisture)
    else if c == "moisture_dropout" then Some(MoistureDropout)
    else if c == "co2_noise" then Some(Co2Noise)
    else None
  }

  function DecodeAll(cs: seq<string>): (r: Option<seq<Reason>>)
    ensures r.Some? ==> |r.value| == |cs|
  {
    if cs == [] then Some([])
    else
      match (DecodeReason(cs[0]), DecodeAll(cs[1..]))
      case (Some(x), Some(xs)) => Some([x] + xs)
      case _ => None
  }

  /** Reads a `reasons` column value back into the reason list. */
  function DecodeReasons(s: string): Option<seq<Reason>>
  {
    DecodeAll(Split(s))
  }

  /** Each code is a non-empty word without a comma. */
  lemma CodeCommaFree(r: Reason)
    ensures CommaFree(Code(r)) && |Code(r)| > 0
  {
    match r
    case HighTemp =>
    case LowMoisture =>
    case MoistureDropout =>
    case Co2Noise =>
  }

  /** Each code is ASCII. */
  lemma CodeAscii(r: Reason)
    ensures IsAscii(Code(r))
  {
    match r
    case HighTemp =>
    case LowMoisture =>
    case MoistureDropout =>
    case Co2Noise =>
  }

  /** Each code reads back as its reason. */
  lemma CodeDecodes(r: Reason)
    ensures DecodeReason(Code(r)) == Some(r)
  {
    match r
    case HighTemp =>
    case LowMoisture =>
    case MoistureDropout =>
    case Co2Noise =>
  }

  lemma {:induction false} DecodeCodes(rs: seq<Reason>)
    ensures DecodeAll(Codes(rs)) == Some(rs)
  {
    if rs != [] {
      CodeDecodes(rs[0]);
      assert Codes(rs)[1..] == Codes(rs[1..]);
      DecodeCodes(rs[1..]);
      assert [rs[0]] + rs[1..] == rs;
    }
  }

  /** A stored `reasons` value reads back as the reason list it was made from. */
  lemma ReasonsRoundTrip(rs: seq<Reason>)
    requires rs != []
    ensures DecodeReasons(ReasonsString(rs)) == Some(rs)
  {
    forall k | 0 <= k < |rs| ensures CommaFree(Codes(rs)[k]) {
      CodeCommaFree(rs[k]);
    }
    SplitJoin(Codes(rs));
    DecodeCodes(rs);
  }

  lemma {:induction false} JoinAscii(parts: seq<string>)
    requires forall k :: 0 <= k < |parts| ==> IsAscii(parts[k])
    ensures IsAscii(Join(parts))
  {
    if |parts| > 1 {
      JoinAscii(parts[1..]);
    }
  }

  /** The `reasons` value is plain ASCII. */
  lemma ReasonsAscii(rs: seq<Reason>)
    ensures IsAscii(ReasonsString(rs))
  {
    forall k | 0 <= k < |rs| ensures IsAscii(Codes(rs)[k]) {
      CodeAscii(rs[k]);
    }
    JoinAscii(Codes(rs));
  }
}
