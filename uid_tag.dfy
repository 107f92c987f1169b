/**
 * The card UID as text. `readRFID` (reader) and `loop` (scanner) both append,
 * for every UID byte, a "0" when the byte is below 0x10 and then
 * `String(byte, HEX)`, and finally upper-case the whole string.
 */
module UidTag {
  import opened ArduinoString
  import opened Platform

  /** The bytes `rfid.uid.uidByte[0 .. rfid.uid.size - 1]` of the card just read. */
  type Uid = seq<byte>

  predicate IsUpperHex(c: char) {
    ('0' <= c <= '9') || ('A' <= c <= 'F')
  }

  /** The upper-case hexadecimal digit of `d`. */
  function HexDigit(d: nat): (c: char)
    requires d < 16
    ensures IsUpperHex(c)
  {
    if d < 10 then ('0' as int + d) as char else ('A' as int + d - 10) as char
  }

  /** The value of an upper-case hexadecimal digit. */
  function HexValue(c: char): (d: nat)
    ensures d < 16
  {
    if '0' <= c <= '9' then c as int - '0' as int
    else if 'A' <= c <= 'F' then c as int - 'A' as int + 10
    else 0
  }

  /** The tag as specified: two upper-case, zero-padded hex digits per UID byte, in order. */
  function Tag(uid: Uid): (t: string)
    ensures |t| == 2 * |uid|
    ensures forall i :: 0 <= i < |t| ==> IsUpperHex(t[i])
  {
    if uid == [] then ""
    else
      var b := uid[|uid| - 1] as nat;
      Tag(uid[..|uid| - 1]) + [HexDigit(b / 16), HexDigit(b % 16)]
  }

  /** What one step of the encoding loop appends, before upper-casing. */
  function Piece(b: byte): string {
    (if b < 0x10 then "0" else "") + HexText(b as nat)
  }

  /** The string the loop has built after the given bytes, before upper-casing. */
  function LowerTag(uid: Uid): string {
    if uid == [] then "" else LowerTag(uid[..|uid| - 1]) + Piece(uid[|uid| - 1])
  }

  lemma UpperDigit(d: nat)
    requires d < 16
    ensures UpperChar(DigitChar(d)) == HexDigit(d)
  {
  }

  lemma UpperPiece(b: byte)
    ensures ToUpperCase(Piece(b)) == [HexDigit(b as nat / 16), HexDigit(b as nat % 16)]
  {
    var n := b as nat;
    UpperDigit(n % 16);
    if n < 16 {
      assert HexText(n) == [DigitChar(n)];
      assert Piece(b) == ['0', DigitChar(n)];
    } else {
      UpperDigit(n / 16);
      assert UnsignedText(n / 16, 16) == [DigitChar(n / 16)];
      assert HexText(n) == [DigitChar(n / 16), DigitChar(n % 16)];
    }
  }

  lemma UpperConcat(a: string, b: string)
    ensures ToUpperCase(a + b) == ToUpperCase(a) + ToUpperCase(b)
  {
  }

  /** Upper-casing what the loop built gives the specified tag. */
  lemma {:induction false} UpperLowerTag(uid: Uid)
    ensures ToUpperCase(LowerTag(uid)) == Tag(uid)
  {
    if uid != [] {
      var init := uid[..|uid| - 1];
      UpperLowerTag(init);
      UpperConcat(LowerTag(init), Piece(uid[|uid| - 1]));
      UpperPiece(uid[|uid| - 1]);
    }
  }

  /**
   * The encoding loop: zero-pad each byte below 0x10, append its hexadecimal
   * text, then upper-case the result.
   */
  method EncodeUid(uid: Uid) returns (tag: string)
    ensures tag == Tag(uid)
    ensures |tag| == 2 * |uid|
  {
    var raw := "";
    var i := 0;
    while i < |uid|
      invariant i <= |uid|
      invariant raw == LowerTag(uid[..i])
    {
      assert uid[..i + 1][..i] == uid[..i];
      if uid[i] < 0x10 {
        raw := raw + "0";
      }
      raw := raw + HexText(uid[i] as nat);
      i := i + 1;
    }
    assert uid[..i] == uid;
    tag := ToUpperCase(raw);
    UpperLowerTag(uid);
  }

  /** Byte `k` of the UID is written at positions 2k and 2k+1 of the tag. */
  lemma {:induction false} TagAt(uid: Uid, k: nat)
    requires k < |uid|
    ensures Tag(uid)[2 * k] == HexDigit(uid[k] as nat / 16)
    ensures Tag(uid)[2 * k + 1] == HexDigit(uid[k] as nat % 16)
  {
    if k < |uid| - 1 {
      TagAt(uid[..|uid| - 1], k);
    }
  }

  /** Reads a tag back into bytes, two digits at a time. */
  function Untag(t: string): (u: Uid)
    decreases |t|
  {
    if |t| < 2 then []
    else Untag(t[..|t| - 2]) + [(16 * HexValue(t[|t| - 2]) + HexValue(t[|t| - 1])) as byte]
  }

  lemma HexValueOfDigit(d: nat)
    requires d < 16
    ensures HexValue(HexDigit(d)) == d
  {
  }

  lemma {:induction false} UntagTag(uid: Uid)
    ensures Untag(Tag(uid)) == uid
  {
    if uid != [] {
      var init := uid[..|uid| - 1];
      var b := uid[|uid| - 1] as nat;
      var t := Tag(uid);
      UntagTag(init);
      assert t[..|t| - 2] == Tag(init);
      HexValueOfDigit(b / 16);
      HexValueOfDigit(b % 16);
      assert init + [uid[|uid| - 1]] == uid;
    }
  }

  /** Distinct UIDs give distinct tags. */
  lemma TagInjective(u: Uid, v: Uid)
    requires Tag(u) == Tag(v)
    ensures u == v
  {
    UntagTag(u);
    UntagTag(v);
  }
}
