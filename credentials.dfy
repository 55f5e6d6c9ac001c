/**
 * The credential generator: the cashier path's name-based temporary password, the webhook
 * path's hexadecimal random password, and the bcrypt digest kept as an uninterpreted term.
 */
module Credentials {
  import opened Text

  /** The work factor both services pass to `bcrypt.hash`. */
  const BcryptCost: nat := 10

  /** A bcrypt digest, represented by the password, cost and salt that produced it; the model
      never computes or inverts a digest. */
  datatype PasswordHash = Bcrypt(plain: string, cost: nat, salt: nat)

  /** `bcrypt.hash(password, 10)` with the salt it draws passed in. */
  function Hash(password: string, salt: nat): PasswordHash {
    Bcrypt(password, BcryptCost, salt)
  }

  /** The value `Math.floor(10 + Math.random() * 90)` can take. */
  type TwoDigitNumber = n: nat | 10 <= n <= 99 witness 10

  /** `generatePasswordFromName`: the first space-delimited token of the trimmed name, case kept
      ('Student' when the name is blank), followed by the two random digits. */
  function PasswordFromName(fullName: string, randomDigits: TwoDigitNumber): (pw: string)
    ensures |pw| >= 3 && pw[|pw| - 2..] == NatToString(randomDigits)
    ensures var head, name := pw[..|pw| - 2], Trim(fullName);
      ' ' !in head &&
      if name == "" then head == "Student"
      else StartsWith(name, head) && (|head| == |name| || name[|head|] == ' ')
  {
    var name := Trim(fullName);
    var parts := Split(name, ' ');
    var firstName := if parts[0] != "" then parts[0] else "Student";
    NatToStringLength(randomDigits, 2, 100);
    SplitFirst(name, ' ');
    var pw := firstName + NatToString(randomDigits);
    assert pw[..|pw| - 2] == firstName;
    pw
  }

  /** One octet of a Node.js Buffer. */
  type Byte = n: int | 0 <= n < 256

  /** A lower-case hexadecimal digit. */
  predicate IsHexDigit(c: char) { '0' <= c <= '9' || 'a' <= c <= 'f' }

  /** The digit of `0123456789abcdef` at position `v`. */
  function HexDigit(v: nat): (c: char)
    requires v < 16
    ensures IsHexDigit(c)
  {
    if v < 10 then ('0' as int + v) as char else ('a' as int + v - 10) as char
  }

  /** `buffer.toString('hex')`: two lower-case hexadecimal digits per byte, high nibble first. */
  function HexEncode(bytes: seq<Byte>): (hex: string)
    ensures |hex| == 2 * |bytes|
    ensures forall i :: 0 <= i < |hex| ==> IsHexDigit(hex[i])
  {
    if bytes == [] then ""
    else [HexDigit(bytes[0] as int / 16), HexDigit(bytes[0] as int % 16)] + HexEncode(bytes[1..])
  }

  /** The value of one lower-case hexadecimal digit. */
  function HexValue(c: char): (v: nat)
    requires IsHexDigit(c)
    ensures v < 16 && HexDigit(v) == c
  {
    if '0' <= c <= '9' then c as int - '0' as int else c as int - 'a' as int + 10
  }

  /** Reads a string of lower-case hexadecimal digit pairs back into bytes. */
  function HexDecode(hex: string): (bytes: seq<Byte>)
    requires |hex| % 2 == 0 && forall i :: 0 <= i < |hex| ==> IsHexDigit(hex[i])
    ensures |bytes| == |hex| / 2
  {
    if hex == [] then []
    else [(16 * HexValue(hex[0]) + HexValue(hex[1]))] + HexDecode(hex[2..])
  }

  /** Hexadecimal encoding loses nothing. */
  lemma {:induction false} HexRoundTrip(bytes: seq<Byte>)
    ensures HexDecode(HexEncode(bytes)) == bytes
  {
    if bytes != [] {
      var n := bytes[0] as int;
      var rest := HexEncode(bytes[1..]);
      var hex := HexEncode(bytes);
      assert hex[0] == HexDigit(n / 16) && hex[1] == HexDigit(n % 16) && hex[2..] == rest;
      ByteFromNibbles(bytes[0]);
      HexRoundTrip(bytes[1..]);
      SameHeadAndTail(HexDecode(hex), bytes);
    }
  }

  lemma {:induction false} SameHeadAndTail<T>(a: seq<T>, b: seq<T>)
    requires |a| > 0 && |b| > 0 && a[0] == b[0] && a[1..] == b[1..]
    ensures a == b
  {
    assert a == [a[0]] + a[1..];
    assert b == [b[0]] + b[1..];
  }

  lemma {:induction false} ByteFromNibbles(b: Byte)
    ensures (16 * HexValue(HexDigit(b as int / 16)) + HexValue(HexDigit(b as int % 16))) == b
  {
    var n := b as int;
    assert 16 * (n / 16) + n % 16 == n;
  }

  /** What `randomBytes(8)` can return. */
  type Entropy = s: seq<Byte> | |s| == 8 witness [0, 0, 0, 0, 0, 0, 0, 0]

  /** `randomBytes(8).toString('hex')`: the webhook path's temporary password. */
  function RandomHexPassword(entropy: Entropy): (pw: string)
    ensures |pw| == 16 && forall i :: 0 <= i < 16 ==> IsHexDigit(pw[i])
    ensures HexDecode(pw) == entropy
  {
    HexRoundTrip(entropy);
    HexEncode(entropy)
  }
}
