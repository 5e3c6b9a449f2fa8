// Password hashing (ainewsback/utils/password.py). MD5 is not modelled: the
// digest is a parameter, a function of the salted string, and the random bytes
// and characters the `secrets` module would draw are passed in explicitly.
module Password {
  import opened Common
  import opened Alphabets

  /** The shape of hashlib.md5(...).hexdigest(): 32 lower-case hexadecimal characters. */
  ghost predicate IsMd5Shaped(digest: string -> string)
  {
    forall s :: |digest(s)| == 32 && forall i :: 0 <= i < 32 ==> IsHexDigit(digest(s)[i])
  }

  /** A digest that never maps two different strings to the same value. */
  ghost predicate Injective(digest: string -> string)
  {
    forall s, t :: s != t ==> digest(s) != digest(t)
  }

  predicate IsByte(b: int) { 0 <= b < 256 }

  /** Two hexadecimal characters per byte, high nibble first, as bytes.hex() writes them. */
  function HexEncode(bytes: seq<int>): (s: string)
    requires forall i :: 0 <= i < |bytes| ==> IsByte(bytes[i])
    ensures |s| == 2 * |bytes|
    ensures forall i :: 0 <= i < |s| ==> IsHexDigit(s[i])
  {
    if bytes == [] then []
    else
      assert IsByte(bytes[0]);
      [HexDigit(bytes[0] / 16), HexDigit(bytes[0] % 16)] + HexEncode(bytes[1..])
  }

  /** The lower-case hexadecimal digit for 0 <= k < 16. */
  function HexDigit(k: int): (c: char)
    requires 0 <= k < 16
    ensures IsHexDigit(c) && HexValue(c) == k
  {
    if k < 10 then ('0' as int + k) as char else ('a' as int + k - 10) as char
  }

  function HexValue(c: char): int
    requires IsHexDigit(c)
  {
    if c <= '9' then c as int - '0' as int else c as int - 'a' as int + 10
  }

  /** The bytes a string of hexadecimal digit pairs stands for. */
  function HexDecode(s: string): seq<int>
    requires |s| % 2 == 0
    requires forall i :: 0 <= i < |s| ==> IsHexDigit(s[i])
  {
    if s == [] then [] else [HexValue(s[0]) * 16 + HexValue(s[1])] + HexDecode(s[2..])
  }

  /** Decoding a salt gives back the random bytes it was made from. */
  lemma {:induction false} HexRoundTrip(bytes: seq<int>)
    requires forall i :: 0 <= i < |bytes| ==> IsByte(bytes[i])
    ensures HexDecode(HexEncode(bytes)) == bytes
  {
    if bytes != [] {
      var s := HexEncode(bytes);
      assert s[2..] == HexEncode(bytes[1..]);
      HexRoundTrip(bytes[1..]);
    }
  }

  /**
   * generate_salt(length): secrets.token_hex(length // 2), where `bytes` are
   * the random bytes drawn. None is the ValueError a negative byte count raises.
   */
  function GenerateSalt(length: int, bytes: seq<int>): (salt: Option<string>)
    requires |bytes| == Times(length / 2)
    requires forall i :: 0 <= i < |bytes| ==> IsByte(bytes[i])
    ensures salt.None? <==> length < 0
    ensures salt.Some? ==> |salt.value| == 2 * (length / 2)
    ensures salt.Some? ==> forall i :: 0 <= i < |salt.value| ==> IsHexDigit(salt.value[i])
    ensures salt.Some? ==> |salt.value| % 2 == 0 && HexDecode(salt.value) == bytes
  {
    if length / 2 < 0 then None
    else
      HexRoundTrip(bytes);
      Some(HexEncode(bytes))
  }

  /** hash_password: the digest of the password with the salt appended. */
  function HashPassword(digest: string -> string, password: string, salt: string): (h: string)
    ensures IsMd5Shaped(digest) ==> |h| == 32 && forall i :: 0 <= i < 32 ==> IsHexDigit(h[i])
  {
    digest(password + salt)
  }

  /** The hash sees only the concatenation: moving characters between password and salt changes nothing. */
  lemma HashSeesConcatenation(digest: string -> string, p1: string, s1: string, p2: string, s2: string)
    requires p1 + s1 == p2 + s2
    ensures HashPassword(digest, p1, s1) == HashPassword(digest, p2, s2)
  {
  }

  /** The default salt length in characters, as generate_salt() is called by create_password. */
  const DefaultSaltLength: int := 16

  /**
   * create_password: a fresh default-length salt (8 random bytes) and the
   * hash of the password under it.
   */
  function CreatePassword(digest: string -> string, password: string, saltBytes: seq<int>): (r: (string, string))
    requires |saltBytes| == DefaultSaltLength / 2
    requires forall i :: 0 <= i < |saltBytes| ==> IsByte(saltBytes[i])
    ensures |r.1| == 16 && forall i :: 0 <= i < |r.1| ==> IsHexDigit(r.1[i])
    ensures HexDecode(r.1) == saltBytes
    ensures IsMd5Shaped(digest) ==> |r.0| == 32
  {
    var salt := GenerateSalt(DefaultSaltLength, saltBytes).value;
    (HashPassword(digest, password, salt), salt)
  }

  /**
   * verify_password: hash the candidate under the stored salt and compare.
   * With an MD5-shaped digest, a stored hash that is not 32 characters long
   * never verifies.
   */
  function VerifyPassword(digest: string -> string, plain: string, hashed: string, salt: string): (ok: bool)
    ensures ok <==> digest(plain + salt) == hashed
    ensures IsMd5Shaped(digest) && |hashed| != 32 ==> !ok
  {
    HashPassword(digest, plain, salt) == hashed
  }

  /** A password verifies against the pair create_password made for it. */
  lemma CreateThenVerify(digest: string -> string, password: string, saltBytes: seq<int>)
    requires |saltBytes| == DefaultSaltLength / 2
    requires forall i :: 0 <= i < |saltBytes| ==> IsByte(saltBytes[i])
    ensures var (h, s) := CreatePassword(digest, password, saltBytes); VerifyPassword(digest, password, h, s)
  {
  }

  /** With an injective digest, any other password is refused. */
  lemma OtherPasswordFails(digest: string -> string, password: string, other: string, hashed: string, salt: string)
    requires Injective(digest)
    requires VerifyPassword(digest, password, hashed, salt)
    requires other != password
    ensures !VerifyPassword(digest, other, hashed, salt)
  {
    assert (other + salt)[..|other|] == other;
    assert (password + salt)[..|password|] == password;
  }

  /**
   * generate_random_password(length): `length` characters chosen with
   * secrets.choice from ASCII letters and digits.
   */
  function GenerateRandomPassword(length: int, picks: seq<int>): (pw: string)
    requires |picks| == Times(length)
    requires ValidPicks(AsciiLetters + Digits, picks)
    ensures |pw| == Times(length)
    ensures forall i :: 0 <= i < |pw| ==> IsAsciiLetter(pw[i]) || IsDigitChar(pw[i])
  {
    DrawLettersDigits(picks)
  }
}
