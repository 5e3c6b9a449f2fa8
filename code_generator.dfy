// The one-time code generators (ainewsback/utils/code_generator.py). The random
// source is made explicit: each generator receives the positions its random
// draws picked in the alphabet, one per character.
module CodeGenerator {
  import opened Common
  import opened Alphabets

  /** `length or CODE_LENGTH`: a missing length and a length of 0 both fall back. */
  function NumericLength(length: Option<int>, configured: int): int
  {
    if length.None? || length.value == 0 then configured else length.value
  }

  /**
   * generate_numeric_code: one random.randint(0, 9) per position; draws[i] is
   * the value drawn for position i.
   */
  function GenerateNumericCode(length: Option<int>, configured: int, draws: seq<int>): (code: string)
    requires |draws| == Times(NumericLength(length, configured))
    requires forall i :: 0 <= i < |draws| ==> 0 <= draws[i] <= 9
    ensures |code| == Times(if length.None? || length == Some(0) then configured else length.value)
    ensures IsDigits(code)
    ensures forall i :: 0 <= i < |code| ==> DigitValue(code[i]) == draws[i]
  {
    var code := Draw(Digits, draws);
    assert forall i :: 0 <= i < |code| ==> code[i] == ('0' as int + draws[i]) as char;
    code
  }

  /** The 32 characters generate_alphanumeric_code chooses from. */
  const AlphanumericAlphabet: string :=
    RemoveChar(RemoveChar(RemoveChar(RemoveChar(AsciiUppercase + Digits, 'O'), '0'), 'I'), '1')

  /** Upper-case letters and digits without the look-alikes O, 0, I and 1: 32 symbols. */
  lemma AlphanumericAlphabetFacts()
    ensures |AlphanumericAlphabet| == 32
    ensures forall x :: x in AlphanumericAlphabet <==>
      (IsAsciiUpper(x) || IsDigitChar(x)) && x != 'O' && x != '0' && x != 'I' && x != '1'
  {
    var s0 := AsciiUppercase + Digits;
    UpperThenDigits();
    assert s0[14] == 'O' && s0[26] == '0' && s0[8] == 'I' && s0[27] == '1';
    var s1 := RemoveChar(s0, 'O');
    RemoveCharFromDistinct(s0, 'O');
    var s2 := RemoveChar(s1, '0');
    assert '0' in s1;
    RemoveCharFromDistinct(s1, '0');
    var s3 := RemoveChar(s2, 'I');
    assert 'I' in s2;
    RemoveCharFromDistinct(s2, 'I');
    assert '1' in s3;
    RemoveCharFromDistinct(s3, '1');
  }

  /** generate_alphanumeric_code(length): random.choices(alphabet, k=length). */
  function GenerateAlphanumericCode(length: int, picks: seq<int>): (code: string)
    requires |picks| == Times(length)
    requires ValidPicks(AlphanumericAlphabet, picks)
    ensures |code| == Times(length)
    ensures forall i :: 0 <= i < |code| ==> IsAsciiUpper(code[i]) || IsDigitChar(code[i])
    ensures forall i :: 0 <= i < |code| ==> code[i] !in "O0I1"
  {
    AlphanumericAlphabetFacts();
    Draw(AlphanumericAlphabet, picks)
  }

  /** generate_mixed_code(length): random.choices over ASCII letters and digits. */
  function GenerateMixedCode(length: int, picks: seq<int>): (code: string)
    requires |picks| == Times(length)
    requires ValidPicks(AsciiLetters + Digits, picks)
    ensures |code| == Times(length)
    ensures forall i :: 0 <= i < |code| ==> IsAsciiLetter(code[i]) || IsDigitChar(code[i])
  {
    DrawLettersDigits(picks)
  }
}
