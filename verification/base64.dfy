/** Base64 decoding of the data-URL payload of an uploaded file, in the
    strict form of section 4 of RFC 4648, together with the matching encoder
    the browser uses to produce the payload. */
module Base64 {
  import opened Wrappers
  import opened Values

  /** A character of the base64 alphabet (the padding `=` excluded). */
  predicate IsAlphabet(c: char) {
    ('A' <= c <= 'Z') || ('a' <= c <= 'z') || ('0' <= c <= '9') || c == '+' || c == '/'
  }

  /** The six-bit value of an alphabet character (table 1 of RFC 4648). */
  function SextetOf(c: char): (v: nat)
    requires IsAlphabet(c)
    ensures v < 64
  {
    if 'A' <= c <= 'Z' then (c - 'A') as nat
    else if 'a' <= c <= 'z' then (c - 'a') as nat + 26
    else if '0' <= c <= '9' then (c - '0') as nat + 52
    else if c == '+' then 62
    else 63
  }

  /** The alphabet character of a six-bit value. */
  function CharOf(v: nat): (c: char)
    requires v < 64
    ensures IsAlphabet(c) && SextetOf(c) == v
  {
    if v < 26 then ('A' as int + v) as char
    else if v < 52 then ('a' as int + v - 26) as char
    else if v < 62 then ('0' as int + v - 52) as char
    else if v == 62 then '+'
    else '/'
  }

  /** The three bytes four sextets stand for (the top bits of the first
      sextet come first). */
  function Bytes3(c0: nat, c1: nat, c2: nat, c3: nat): (r: seq<Byte>)
    requires c0 < 64 && c1 < 64 && c2 < 64 && c3 < 64
    ensures |r| == 3
  {
    [c0 * 4 + c1 / 16, (c1 % 16) * 16 + c2 / 4, (c2 % 4) * 64 + c3]
  }

  /** The sextets of three bytes, most significant bits first. */
  function Sextets(b0: Byte, b1: Byte, b2: Byte): (r: seq<nat>)
    ensures |r| == 4 && forall i | 0 <= i < 4 :: r[i] < 64
  {
    [b0 / 4, (b0 % 4) * 16 + b1 / 16, (b1 % 16) * 4 + b2 / 64, b2 % 64]
  }

  /** Regrouping the sextets of three bytes into bytes gives them back. */
  lemma SextetsBytes(b0: Byte, b1: Byte, b2: Byte)
    ensures var c := Sextets(b0, b1, b2); Bytes3(c[0], c[1], c[2], c[3]) == [b0, b1, b2]
  {
    var c := Sextets(b0, b1, b2);
    assert c[1] / 16 == b0 % 4 && c[1] % 16 == b1 / 16;
    assert c[2] / 4 == b1 % 16 && c[2] % 4 == b2 / 64;
  }

  /** Four characters of the alphabet for three bytes. */
  function EncodeGroup(b0: Byte, b1: Byte, b2: Byte): (r: string)
    ensures |r| == 4
  {
    var c := Sextets(b0, b1, b2);
    [CharOf(c[0]), CharOf(c[1]), CharOf(c[2]), CharOf(c[3])]
  }

  /** Each character of a group spells the corresponding sextet. */
  lemma GroupSextets(b0: Byte, b1: Byte, b2: Byte)
    ensures var r := EncodeGroup(b0, b1, b2);
            forall i | 0 <= i < 4 :: IsAlphabet(r[i]) && SextetOf(r[i]) == Sextets(b0, b1, b2)[i]
  {
  }

  /** `base64.b64encode`, padding the last group with `=`. */
  function Encode(bs: seq<Byte>): (s: string)
    ensures |s| % 4 == 0 && (|s| == 0 <==> |bs| == 0)
    decreases |bs|
  {
    if |bs| == 0 then ""
    else if |bs| == 1 then
      EncodeGroup(bs[0], 0, 0)[..2] + "=="
    else if |bs| == 2 then
      EncodeGroup(bs[0], bs[1], 0)[..3] + "="
    else
      EncodeGroup(bs[0], bs[1], bs[2]) + Encode(bs[3..])
  }

  /** The number of padding characters at the end of a quantum-aligned
      string. */
  function Padding(s: string): nat {
    if |s| >= 2 && s[|s| - 2] == '=' && s[|s| - 1] == '=' then 2
    else if |s| >= 1 && s[|s| - 1] == '=' then 1
    else 0
  }

  const NonAlphabet: Error := ValueError("Non-base64 digit found")
  const BadPadding: Error := ValueError("Incorrect padding")

  /** One quantum of four alphabet characters. */
  function DecodeFull(q: string): (r: Result<seq<Byte>>)
    requires |q| == 4
    ensures r.Ok? <==> forall i | 0 <= i < 4 :: IsAlphabet(q[i])
    ensures r.Ok? ==> |r.value| == 3
  {
    if IsAlphabet(q[0]) && IsAlphabet(q[1]) && IsAlphabet(q[2]) && IsAlphabet(q[3]) then
      Ok(Bytes3(SextetOf(q[0]), SextetOf(q[1]), SextetOf(q[2]), SextetOf(q[3])))
    else
      Err(NonAlphabet)
  }

  /** The final quantum, which may end in one or two padding characters
      standing for one or two missing bytes. */
  function DecodeFinal(q: string): (r: Result<seq<Byte>>)
    requires |q| == 4
    ensures r.Ok? ==> |r.value| == 3 - Padding(q)
    ensures r.Ok? ==> forall i | 0 <= i < 4 - Padding(q) :: IsAlphabet(q[i])
  {
    if q[2] == '=' && q[3] == '=' then
      if IsAlphabet(q[0]) && IsAlphabet(q[1]) then Ok(Bytes3(SextetOf(q[0]), SextetOf(q[1]), 0, 0)[..1])
      else Err(NonAlphabet)
    else if q[3] == '=' then
      if IsAlphabet(q[0]) && IsAlphabet(q[1]) && IsAlphabet(q[2]) then
        Ok(Bytes3(SextetOf(q[0]), SextetOf(q[1]), SextetOf(q[2]), 0)[..2])
      else Err(NonAlphabet)
    else
      DecodeFull(q)
  }

  /** The quanta of a string whose length is a multiple of four, in order. */
  function DecodeQuanta(s: string): (r: Result<seq<Byte>>)
    requires |s| % 4 == 0
    ensures r.Ok? ==> |r.value| == |s| / 4 * 3 - Padding(s)
    decreases |s|
  {
    if |s| == 0 then Ok([])
    else if |s| == 4 then DecodeFinal(s)
    else
      var head :- DecodeFull(s[..4]);
      var tail :- DecodeQuanta(s[4..]);
      assert Padding(s[4..]) == Padding(s);
      Ok(head + tail)
  }

  /** `base64.b64decode` in its validating form: the length must be a
      multiple of four, every character but the final padding must belong to
      the alphabet, and only the last quantum may be padded. */
  function Decode(s: string): (r: Result<seq<Byte>>)
    ensures r.Ok? ==> |s| % 4 == 0 && |r.value| == |s| / 4 * 3 - Padding(s)
    ensures |s| % 4 != 0 ==> r == Err(BadPadding)
  {
    if |s| % 4 != 0 then Err(BadPadding) else DecodeQuanta(s)
  }

  /** A decoded string consists of alphabet characters followed by its
      padding: a character outside the alphabet, or a `=` before the final
      padding, makes decoding fail. */
  lemma {:induction false} DecodeOnlyAlphabet(s: string)
    requires Decode(s).Ok?
    ensures forall i | 0 <= i < |s| - Padding(s) :: IsAlphabet(s[i])
    decreases |s|
  {
    if |s| > 4 {
      var rest := s[4..];
      assert Decode(rest) == DecodeQuanta(rest);
      DecodeOnlyAlphabet(rest);
      assert Padding(rest) == Padding(s);
      forall i | 0 <= i < |s| - Padding(s)
        ensures IsAlphabet(s[i])
      {
        if i >= 4 {
          assert s[i] == rest[i - 4];
        } else {
          assert s[i] == s[..4][i];
        }
      }
    }
  }

  /** The converse: a string of whole quanta made of alphabet characters
      followed by at most two padding characters decodes. */
  lemma {:induction false} DecodeAccepts(s: string)
    requires |s| % 4 == 0
    requires forall i | 0 <= i < |s| - Padding(s) :: IsAlphabet(s[i])
    ensures Decode(s).Ok?
    decreases |s|
  {
    if |s| == 4 {
      assert IsAlphabet(s[0]) && IsAlphabet(s[1]);
    } else if |s| > 4 {
      var rest := s[4..];
      assert Padding(rest) == Padding(s);
      forall i | 0 <= i < |rest| - Padding(rest)
        ensures IsAlphabet(rest[i])
      {
        assert rest[i] == s[i + 4];
      }
      DecodeAccepts(rest);
      assert Decode(rest) == DecodeQuanta(rest);
      assert forall i | 0 <= i < 4 :: s[..4][i] == s[i];
      assert DecodeFull(s[..4]).Ok?;
    }
  }

  /** Decoding succeeds exactly on whole quanta of alphabet characters
      followed by at most two padding characters. */
  lemma DecodeOkIff(s: string)
    ensures Decode(s).Ok? <==> |s| % 4 == 0 && forall i | 0 <= i < |s| - Padding(s) :: IsAlphabet(s[i])
  {
    if Decode(s).Ok? {
      DecodeOnlyAlphabet(s);
    } else if |s| % 4 == 0 && forall i | 0 <= i < |s| - Padding(s) :: IsAlphabet(s[i]) {
      DecodeAccepts(s);
    }
  }

  /** A single trailing byte survives its two-character, doubly padded
      quantum. */
  lemma DecodeEncodeOne(b: Byte)
    ensures DecodeFinal(Encode([b])) == Ok([b])
  {
    var g := EncodeGroup(b, 0, 0);
    var s := Encode([b]);
    assert s == [g[0], g[1], '=', '='];
    var full := Bytes3(SextetOf(g[0]), SextetOf(g[1]), SextetOf(g[2]), SextetOf(g[3]));
    var part := Bytes3(SextetOf(g[0]), SextetOf(g[1]), 0, 0);
    GroupSextets(b, 0, 0);
    SextetsBytes(b, 0, 0);
    assert full == [b, 0, 0];
    assert part[0] == full[0];
    assert DecodeFinal(s) == Ok(part[..1]);
    assert part[..1] == [b];
  }

  /** Two trailing bytes survive their three-character, singly padded
      quantum. */
  lemma DecodeEncodeTwo(b0: Byte, b1: Byte)
    ensures DecodeFinal(Encode([b0, b1])) == Ok([b0, b1])
  {
    var g := EncodeGroup(b0, b1, 0);
    var s := Encode([b0, b1]);
    assert s == [g[0], g[1], g[2], '='];
    var full := Bytes3(SextetOf(g[0]), SextetOf(g[1]), SextetOf(g[2]), SextetOf(g[3]));
    var part := Bytes3(SextetOf(g[0]), SextetOf(g[1]), SextetOf(g[2]), 0);
    GroupSextets(b0, b1, 0);
    SextetsBytes(b0, b1, 0);
    assert full == [b0, b1, 0];
    assert part[0] == full[0] && part[1] == full[1];
    assert DecodeFinal(s) == Ok(part[..2]);
    assert part[..2] == [b0, b1];
  }

  /** A full quantum decodes to the three bytes it encodes. */
  lemma DecodeGroup(b0: Byte, b1: Byte, b2: Byte)
    ensures DecodeFull(EncodeGroup(b0, b1, b2)) == Ok([b0, b1, b2])
  {
    GroupSextets(b0, b1, b2);
    SextetsBytes(b0, b1, b2);
  }

  /** A full leading quantum decodes on its own, ahead of the rest. */
  lemma DecodeQuantaCons(g: string, rest: string, head: seq<Byte>, tail: seq<Byte>)
    requires |g| == 4 && |rest| % 4 == 0
    requires DecodeFull(g) == Ok(head) && DecodeQuanta(rest) == Ok(tail)
    ensures DecodeQuanta(g + rest) == Ok(head + tail)
  {
    var s := g + rest;
    assert s[..4] == g && s[4..] == rest;
    if |rest| == 0 {
      assert s == g && tail == [] && head + tail == head;
    }
  }

  lemma SplitThree<T>(xs: seq<T>)
    requires |xs| >= 3
    ensures xs == [xs[0], xs[1], xs[2]] + xs[3..]
  {
  }

  lemma EncodeCons(bs: seq<Byte>)
    requires |bs| >= 3
    ensures Encode(bs) == EncodeGroup(bs[0], bs[1], bs[2]) + Encode(bs[3..])
  {
  }

  /** Three leading bytes and their quantum come off the front together. */
  lemma DecodeEncodeCons(bs: seq<Byte>)
    requires |bs| >= 3
    requires DecodeQuanta(Encode(bs[3..])) == Ok(bs[3..])
    ensures DecodeQuanta(Encode(bs)) == Ok(bs)
  {
    EncodeCons(bs);
    DecodeGroup(bs[0], bs[1], bs[2]);
    SplitThree(bs);
    DecodeQuantaCons(EncodeGroup(bs[0], bs[1], bs[2]), Encode(bs[3..]), [bs[0], bs[1], bs[2]], bs[3..]);
  }

  /** Decoding what was encoded gives the bytes back. */
  lemma {:induction false} DecodeEncode(bs: seq<Byte>)
    ensures Decode(Encode(bs)) == Ok(bs)
    decreases |bs|
  {
    if |bs| == 1 {
      DecodeEncodeOne(bs[0]);
      assert bs == [bs[0]];
    } else if |bs| == 2 {
      DecodeEncodeTwo(bs[0], bs[1]);
      assert bs == [bs[0], bs[1]];
    } else if |bs| >= 3 {
      DecodeEncode(bs[3..]);
      DecodeEncodeCons(bs);
    }
  }
}
