/**
 * The bytes of `labels.json`. `train` opens it for writing in the platform's
 * default encoding and `reconhecimento` decodes it as UTF-8. Only what is
 * needed to compare the two is modelled: cp1252 on text made of characters
 * below U+0080 or from U+00A0 to U+00FF, and the structural test of UTF-8
 * decoding.
 */
module Encoding {
  import opened Common

  type Byte = b: int | 0 <= b < 256

  /** A character that cp1252 writes as the single byte of its own code point. */
  predicate Latin(c: char)
  {
    (c as int) < 0x80 || 0xA0 <= (c as int) <= 0xFF
  }

  /**
   * The cp1252 encoding of text made only of such characters; None for other
   * text, which cp1252 maps differently or cannot encode and which is not
   * modelled here.
   */
  function Cp1252(s: string): (r: Option<seq<Byte>>)
    ensures r.Some? <==> forall i :: 0 <= i < |s| ==> Latin(s[i])
    ensures r.Some? ==> |r.value| == |s| && forall i :: 0 <= i < |s| ==> r.value[i] == s[i] as int
  {
    if s == [] then Some([])
    else if !Latin(s[0]) then None
    else
      match Cp1252(s[1..])
      case None => None
      case Some(rest) => Some([s[0] as int as Byte] + rest)
  }

  /** The number of continuation bytes a UTF-8 lead byte announces; -1 for a byte that cannot start a character. */
  function Utf8Tail(lead: Byte): int
  {
    if lead < 0x80 then 0
    else if 0xC2 <= lead < 0xE0 then 1
    else if 0xE0 <= lead < 0xF0 then 2
    else if 0xF0 <= lead < 0xF5 then 3
    else -1
  }

  /**
   * Bytes in which every character is a lead byte followed by the
   * continuation bytes (0x80..0xBF) it announces. A UTF-8 decoder also
   * rejects overlong forms and surrogates, so bytes that fail this test do
   * not decode.
   */
  predicate Utf8Structured(b: seq<Byte>)
    decreases |b|
  {
    b == [] ||
      var n := Utf8Tail(b[0]);
      && 0 <= n < |b|
      && (forall k :: 1 <= k <= n ==> 0x80 <= b[k] < 0xC0)
      && Utf8Structured(b[n + 1..])
  }

  predicate Ascii(s: string)
  {
    forall i :: 0 <= i < |s| ==> (s[i] as int) < 0x80
  }

  /** ASCII text written as cp1252 passes the UTF-8 test: the mismatch only matters for other characters. */
  lemma {:induction false} AsciiReadsBack(s: string)
    requires Ascii(s)
    ensures Cp1252(s).Some? && Utf8Structured(Cp1252(s).value)
  {
    if s != [] {
      AsciiReadsBack(s[1..]);
      var b := Cp1252(s).value;
      assert Utf8Tail(b[0]) == 0;
      assert b[1..] == Cp1252(s[1..]).value;
    }
  }

  /** After ASCII bytes, a lead byte that is not followed by the continuation byte it announces makes the bytes undecodable. */
  lemma {:induction false} BrokenAfterAscii(b: seq<Byte>, j: nat)
    requires j + 1 < |b|
    requires forall k :: 0 <= k < j ==> b[k] < 0x80
    requires Utf8Tail(b[j]) >= 1 && !(0x80 <= b[j + 1] < 0xC0)
    ensures !Utf8Structured(b)
    decreases j
  {
    if j > 0 {
      BrokenAfterAscii(b[1..], j - 1);
    }
  }

  /** The labels file for `{0: "João"}` as `json.dump(..., ensure_ascii=False, indent=2)` writes it. */
  const JoaoLabels: string := "{\n  \"0\": \"Jo\U{00E3}o\"\n}"

  /**
   * Written through a cp1252 file, the letter of `João` becomes the byte
   * 0xE3, which announces two continuation bytes but is followed by the
   * ASCII `o`: UTF-8 decoding of the file fails.
   */
  lemma Cp1252NameDoesNotDecode()
    ensures Cp1252(JoaoLabels).Some?
    ensures !Utf8Structured(Cp1252(JoaoLabels).value)
  {
    var s := JoaoLabels;
    assert |s| == 17;
    assert forall i :: 0 <= i < |s| ==> Latin(s[i]);
    var b := Cp1252(s).value;
    assert s[12] == '\U{00E3}' && s[13] == 'o';
    assert forall k :: 0 <= k < 12 ==> (s[k] as int) < 0x80;
    BrokenAfterAscii(b, 12);
  }
}
