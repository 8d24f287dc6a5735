/** Concrete submissions run through the transforms, as worked examples of
    the general contracts. */
module Scenarios {
  import opened Wrappers
  import opened Values
  import Decimal
  import Base64
  import opened Transforms

  /** A `number` input rejects letters with a `ValueError` and turns a digit
      string into its integer. */
  lemma NumberSubmissions()
    ensures Apply(ToInt, Str("abc")).Err? && Apply(ToInt, Str("abc")).error.ValueError?
    ensures Apply(ToInt, Str("17")) == Ok(Int(17))
    ensures Apply(ToInt, Str("-5")) == Ok(Int(-5))
  {
    assert !Decimal.IsDigit('a');
    assert Decimal.DigitsValue("17") == 17 by {
      assert "17"[..1] == "1";
      assert Decimal.DigitsValue("1") == 1 by { assert "1"[..0] == ""; }
    }
    assert "-5"[1..] == "5";
    assert Decimal.DigitsValue("5") == 5 by { assert "5"[..0] == ""; }
  }

  /** Non-canonical spellings: leading zeros and a `+` are ignored, and
      minus zero is zero. */
  lemma NonCanonicalNumbers()
    ensures Apply(ToInt, Str("007")) == Ok(Int(7))
    ensures Apply(ToInt, Str("+5")) == Ok(Int(5))
    ensures Apply(ToInt, Str("-0")) == Ok(Int(0))
  {
    assert Decimal.Zeros(2) == "00" && Decimal.Zeros(0) == "";
    assert Decimal.Digits(7) == "7" && Decimal.Digits(5) == "5" && Decimal.Digits(0) == "0";
    ToIntSignedZeros("", 2, 7);
    assert "" + "00" + "7" == "007";
    ToIntSignedZeros("+", 0, 5);
    assert "+" + "" + "5" == "+5";
    ToIntSignedZeros("-", 0, 0);
    assert "-" + "" + "0" == "-0";
  }

  /** A number submitted as the bytes `b"17"` converts to 17. */
  lemma NumberFromBytes()
    ensures Apply(ToInt, Bytes([49, 55])) == Ok(Int(17))
  {
    assert Latin1([49, 55]) == "17";
    ToIntBytes([49, 55], "17");
    NumberSubmissions();
  }

  /** The first quantum of the payload spells `hel`. */
  lemma HelloFirstQuantum()
    ensures Base64.DecodeFull("aGVs") == Ok([104, 101, 108])
  {
    assert Base64.SextetOf('a') == 26 && Base64.SextetOf('G') == 6;
    assert Base64.SextetOf('V') == 21 && Base64.SextetOf('s') == 44;
    assert Base64.Bytes3(26, 6, 21, 44) == [104, 101, 108];
  }

  /** The padded last quantum spells `lo`. */
  lemma HelloLastQuantum()
    ensures Base64.DecodeFinal("bG8=") == Ok([108, 111])
  {
    var q := "bG8=";
    assert q[0] == 'b' && q[1] == 'G' && q[2] == '8' && q[3] == '=';
    assert Base64.IsAlphabet('b') && Base64.IsAlphabet('G') && Base64.IsAlphabet('8');
    assert Base64.SextetOf('b') == 27 && Base64.SextetOf('G') == 6 && Base64.SextetOf('8') == 60;
    assert Base64.Bytes3(27, 6, 60, 0) == [108, 111, 0];
    assert [108, 111, 0][..2] == [108, 111];
  }

  /** The whole payload spells `hello`. */
  lemma HelloPayload()
    ensures Base64.Decode("aGVsbG8=") == Ok([104, 101, 108, 108, 111])
  {
    HelloFirstQuantum();
    HelloLastQuantum();
    assert Base64.DecodeQuanta("bG8=") == Ok([108, 111]);
    Base64.DecodeQuantaCons("aGVs", "bG8=", [104, 101, 108], [108, 111]);
    assert "aGVs" + "bG8=" == "aGVsbG8=";
    assert [104, 101, 108] + [108, 111] == [104, 101, 108, 108, 111];
  }

  /** Low bits the padding discards need not be zero: `QR==` decodes to
      `A` just as `QQ==` does. */
  lemma StrayPaddingBits()
    ensures Base64.Decode("QR==") == Ok([65])
  {
    var q := "QR==";
    assert q[0] == 'Q' && q[1] == 'R' && q[2] == '=' && q[3] == '=';
    assert Base64.IsAlphabet('Q') && Base64.IsAlphabet('R');
    assert Base64.SextetOf('Q') == 16 && Base64.SextetOf('R') == 17;
    assert Base64.Bytes3(16, 17, 0, 0) == [65, 16, 0];
    assert [65, 16, 0][..1] == [65];
  }

  /** Data after a padded quantum is rejected, not ignored. */
  lemma DataAfterPadding()
    ensures Base64.Decode("QQ==QUJD").Err?
  {
    var s := "QQ==QUJD";
    assert Base64.Padding(s) == 0 && s[2] == '=' && !Base64.IsAlphabet(s[2]);
    Base64.DecodeOkIff(s);
  }

  /** The upload of a five-byte text file: the payload after the first comma
      decodes to the bytes of `hello`. */
  lemma HelloDataUrl()
    ensures DataUrlContent("data:text/plain;base64,aGVsbG8=") == Ok([104, 101, 108, 108, 111])
  {
    var header := "data:text/plain;base64";
    var s := "aGVsbG8=";
    assert CommaFree(header);
    assert "data:text/plain;base64,aGVsbG8=" == header + "," + s;
    LaterCommasReachDecoder(header, s);
    HelloPayload();
  }
}
