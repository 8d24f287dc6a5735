/** The preprocessing transforms the builders attach: what the pipeline
    applies to a submitted raw value before validation. */
module Transforms {
  import opened Wrappers
  import opened Values
  import Decimal
  import Base64

  /** The three transforms the builders use: the identity (`lambda d: d`),
      `int()` (the `NUMBER` input kind), and `read_file` (file upload). */
  datatype Transform = Identity | ToInt | ReadFile

  /** The characters a byte string spells, one per byte. */
  function Latin1(bs: seq<Byte>): (s: string)
    ensures |s| == |bs|
    ensures forall i | 0 <= i < |bs| :: s[i] as int == bs[i]
  {
    seq(|bs|, i requires 0 <= i < |bs| => bs[i] as char)
  }

  /** The decimal parse of a string, as an integer value. */
  function ParseInt(s: string): (r: Result<Value>)
    ensures r.Ok? <==> Decimal.WellFormed(s)
    ensures r.Ok? ==> r.value.Int?
    ensures r.Err? ==> r.error.ValueError?
  {
    var n :- Decimal.Parse(s);
    Ok(Int(n))
  }

  /** Python's `int(d)` on the values a submission can carry: integers pass
      through, booleans become 0 or 1, strings and byte strings are parsed as
      signed decimals, and anything else is a `TypeError`. */
  function PyInt(d: Value): (r: Result<Value>)
    ensures r.Ok? ==> r.value.Int?
    ensures d.Int? ==> r == Ok(d)
    ensures d.Str? ==> (r.Ok? <==> Decimal.WellFormed(d.s))
    ensures d.Str? && r.Err? ==> r.error.ValueError?
    ensures d.Bool? ==> r == Ok(Int(if d.b then 1 else 0))
    ensures d.Bytes? ==> (r.Ok? <==> Decimal.WellFormed(Latin1(d.data)))
    ensures !(d.Int? || d.Bool? || d.Str? || d.Bytes?) ==> r.Err? && r.error.TypeError?
  {
    if d.Int? then Ok(d)
    else if d.Bool? then Ok(Int(if d.b then 1 else 0))
    else if d.Str? then ParseInt(d.s)
    else if d.Bytes? then ParseInt(Latin1(d.data))
    else Err(TypeError("int() argument must be a string, a bytes-like object or a number"))
  }

  predicate CommaFree(u: string) {
    forall i | 0 <= i < |u| :: u[i] != ','
  }

  /** The position of the first comma, or the length when there is none. */
  function FirstComma(u: string): (k: nat)
    ensures k <= |u|
    ensures k < |u| ==> u[k] == ','
    ensures forall i | 0 <= i < k :: u[i] != ','
  {
    if |u| == 0 || u[0] == ',' then 0 else 1 + FirstComma(u[1..])
  }

  /** The bytes a data URL carries: everything after its first comma,
      base64-decoded; a URL without a comma cannot be split in two. */
  function DataUrlContent(u: string): (r: Result<seq<Byte>>)
    ensures CommaFree(u) ==> r == Err(ValueError("not enough values to unpack (expected 2, got 1)"))
    ensures !CommaFree(u) ==> r == Base64.Decode(u[FirstComma(u) + 1..])
  {
    var k := FirstComma(u);
    if k == |u| then Err(ValueError("not enough values to unpack (expected 2, got 1)"))
    else Base64.Decode(u[k + 1..])
  }

  /** `read_file`: decodes the data URL under `dataurl` and stores the bytes
      as `content`, keeping every other key of the submitted dictionary. */
  function ReadFileOf(d: Value): (r: Result<Value>)
    ensures r.Ok? ==> d.Dict? && "dataurl" in d.entries && d.entries["dataurl"].Str?
    ensures d.Dict? && "dataurl" !in d.entries ==> r == Err(KeyError("dataurl"))
    ensures d.Dict? && "dataurl" in d.entries && d.entries["dataurl"].Str? ==>
              match DataUrlContent(d.entries["dataurl"].s)
              case Ok(bs) => r == Ok(Dict(d.entries["content" := Bytes(bs)]))
              case Err(e) => r == Err(e)
    ensures d.Dict? && "dataurl" in d.entries && d.entries["dataurl"].Bytes? ==> r.Err? && r.error.TypeError?
    ensures d.Dict? && "dataurl" in d.entries && !d.entries["dataurl"].Str? && !d.entries["dataurl"].Bytes? ==>
              r.Err? && r.error.AttributeError?
    ensures !d.Dict? ==> r.Err? && r.error.TypeError?
  {
    match d
    case Dict(m) =>
      if "dataurl" !in m then Err(KeyError("dataurl"))
      else
        match m["dataurl"] {
          case Str(u) =>
            var content :- DataUrlContent(u);
            Ok(Dict(m["content" := Bytes(content)]))
          case Bytes(_) => Err(TypeError("a bytes-like object is required, not 'str'"))
          case _ => Err(AttributeError("object has no attribute 'split'"))
        }
    case _ => Err(TypeError("the file payload is not subscriptable by a str key"))
  }

  /** A successful `read_file` returns the submitted dictionary with
      `content` added or replaced and every other key as it was. */
  lemma ReadFileKeepsOthers(d: Value)
    requires ReadFileOf(d).Ok?
    ensures var e := ReadFileOf(d).value;
            && e.Dict?
            && e.entries.Keys == d.entries.Keys + {"content"}
            && (forall k | k in d.entries && k != "content" :: e.entries[k] == d.entries[k])
            && e.entries["content"] == Bytes(DataUrlContent(d.entries["dataurl"].s).value)
  {
  }

  /** Applies a transform to a raw submitted value: the identity never
      fails, `int()` only ever yields integers, and `read_file` only ever
      yields a dictionary whose `content` is a byte string. */
  function Apply(t: Transform, raw: Value): (r: Result<Value>)
    ensures t.Identity? ==> r == Ok(raw)
    ensures t.ToInt? && r.Ok? ==> r.value.Int?
    ensures t.ReadFile? && r.Ok? ==> r.value.Dict? && "content" in r.value.entries && r.value.entries["content"].Bytes?
  {
    match t
    case Identity => Ok(raw)
    case ToInt => PyInt(raw)
    case ReadFile => ReadFileOf(raw)
  }

  /** A submitted number string parses back to the integer it spells. */
  lemma ToIntFormat(n: int)
    ensures Apply(ToInt, Str(Decimal.Format(n))) == Ok(Int(n))
  {
    Decimal.ParseFormat(n);
  }

  /** A `NUMBER` submission with a sign and leading zeros converts to the
      signed value of its remaining digits. */
  lemma ToIntSignedZeros(sign: string, k: nat, n: nat)
    requires sign == "" || sign == "+" || sign == "-"
    ensures Apply(ToInt, Str(sign + Decimal.Zeros(k) + Decimal.Digits(n))) == Ok(Int(if sign == "-" then 0 - n else n))
  {
    Decimal.ParseSignedZeros(sign, k, n);
  }

  /** A byte string converts exactly as the string its bytes spell. */
  lemma ToIntBytes(bs: seq<Byte>, s: string)
    requires Latin1(bs) == s
    ensures Apply(ToInt, Bytes(bs)) == Apply(ToInt, Str(s))
  {
  }

  /** The comma search stops at the comma after a comma-free header. */
  lemma {:induction false} FirstCommaAfterHeader(header: string, rest: string)
    requires CommaFree(header)
    ensures FirstComma(header + "," + rest) == |header|
    decreases |header|
  {
    var u := header + "," + rest;
    if |header| > 0 {
      assert u[1..] == header[1..] + "," + rest;
      FirstCommaAfterHeader(header[1..], rest);
    }
  }

  /** A data URL built from any comma-free header and the base64 encoding of
      some bytes carries exactly those bytes; the header is never inspected. */
  lemma DataUrlRoundTrip(header: string, bs: seq<Byte>)
    requires CommaFree(header)
    ensures DataUrlContent(header + "," + Base64.Encode(bs)) == Ok(bs)
  {
    var u := header + "," + Base64.Encode(bs);
    FirstCommaAfterHeader(header, Base64.Encode(bs));
    assert u[|header| + 1..] == Base64.Encode(bs);
    Base64.DecodeEncode(bs);
  }

  /** Uploading such a data URL stores those bytes as `content` and leaves
      the other keys as they were. */
  lemma ReadFileRoundTrip(m: map<string, Value>, header: string, bs: seq<Byte>)
    requires CommaFree(header)
    requires "dataurl" in m && m["dataurl"] == Str(header + "," + Base64.Encode(bs))
    ensures Apply(ReadFile, Dict(m)) == Ok(Dict(m["content" := Bytes(bs)]))
  {
    DataUrlRoundTrip(header, bs);
  }

  /** Only the first comma splits: later commas belong to the payload, which
      then fails to decode since a comma is not a base64 character. */
  lemma LaterCommasReachDecoder(header: string, payload: string)
    requires CommaFree(header)
    ensures DataUrlContent(header + "," + payload) == Base64.Decode(payload)
  {
    var u := header + "," + payload;
    FirstCommaAfterHeader(header, payload);
    assert u[|header| + 1..] == payload;
  }
}
