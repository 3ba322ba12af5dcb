/** otp_service.py: code generation, the OTP mail body and the console
    verification flow. The random source is an explicit sequence of draws:
    draw `d` stands for `random.choice` picking `Digits[d]`. */
module OtpService {
  import opened Wrappers
  import opened Text

  /** `generate_otp`'s default `length`. */
  const DefaultOtpLength: nat := 6

  /** The text the OTP mail body starts with. */
  const OtpMailLead: string := "Your OTP code is: "

  /** Each draw picks one of the ten digits. */
  predicate ValidDraws(draws: seq<int>) {
    forall i :: 0 <= i < |draws| ==> 0 <= draws[i] < |Digits|
  }

  /** A code as `generate_otp()` produces it with its default length. */
  predicate IsOtpCode(code: string) {
    |code| == DefaultOtpLength && forall i :: 0 <= i < |code| ==> IsDigit(code[i])
  }

  /** `generate_otp(length)`: one digit per draw, `length` draws (none when
      `length` is zero or negative, as `range(length)` is then empty). */
  function GenerateOtp(length: int, draws: seq<int>): (code: string)
    requires ValidDraws(draws) && length <= |draws|
    ensures |code| == if length <= 0 then 0 else length
    ensures forall i :: 0 <= i < |code| ==> code[i] == Digits[draws[i]]
    ensures forall i :: 0 <= i < |code| ==> code[i] in Digits
  {
    if length <= 0 then "" else GenerateOtp(length - 1, draws) + [Digits[draws[length - 1]]]
  }

  /** With its default length the generator yields a six-digit code, leading
      zeros included. */
  lemma DefaultCodeIsOtpCode(draws: seq<int>)
    requires ValidDraws(draws) && DefaultOtpLength <= |draws|
    ensures IsOtpCode(GenerateOtp(DefaultOtpLength, draws))
  {
    var code := GenerateOtp(DefaultOtpLength, draws);
    forall i | 0 <= i < |code|
      ensures IsDigit(code[i])
    {
      DigitsInOrder(draws[i]);
    }
  }

  /** The draws a digit string encodes, read back from its characters. */
  function DrawsOf(code: string): (draws: seq<int>)
    requires forall i :: 0 <= i < |code| ==> IsDigit(code[i])
    ensures |draws| == |code|
  {
    seq(|code|, i requires 0 <= i < |code| => DigitValue(code[i]))
  }

  /** A generated code determines the draws that produced it. */
  lemma DrawsOfGeneratedCode(length: nat, draws: seq<int>)
    requires ValidDraws(draws) && length <= |draws|
    ensures forall i :: 0 <= i < length ==> IsDigit(GenerateOtp(length, draws)[i])
    ensures DrawsOf(GenerateOtp(length, draws)) == draws[..length]
  {
    var code := GenerateOtp(length, draws);
    forall i | 0 <= i < length
      ensures IsDigit(code[i]) && DigitValue(code[i]) == draws[i]
    {
      DigitsInOrder(draws[i]);
    }
  }

  /** Every digit string of a given length can be generated: the generator
      misses no code. */
  lemma EveryDigitStringIsGenerated(code: string)
    requires forall i :: 0 <= i < |code| ==> IsDigit(code[i])
    ensures ValidDraws(DrawsOf(code))
    ensures GenerateOtp(|code|, DrawsOf(code)) == code
  {
    var draws := DrawsOf(code);
    forall i | 0 <= i < |code|
      ensures 0 <= draws[i] < |Digits| && Digits[draws[i]] == code[i]
    {
      DigitAtItsValue(code[i]);
    }
    assert ValidDraws(draws);
    var generated := GenerateOtp(|code|, draws);
    assert |generated| == |code|;
  }

  /** `send_otp_email`'s body text for `otp`. */
  function OtpMailBody(otp: string): (body: string)
    ensures |body| == |OtpMailLead| + |otp|
    ensures body[..|OtpMailLead|] == OtpMailLead && body[|OtpMailLead|..] == otp
  {
    OtpMailLead + otp
  }

  /** What a recipient reads off a mail body: the text after the lead, if the
      body starts with it. */
  function CodeInMailBody(body: string): Option<string>
  {
    if |OtpMailLead| <= |body| && body[..|OtpMailLead|] == OtpMailLead
    then Some(body[|OtpMailLead|..])
    else None
  }

  /** The mail body carries exactly the code it was built from. */
  lemma MailBodyCarriesCode(otp: string)
    ensures CodeInMailBody(OtpMailBody(otp)) == Some(otp)
  {
  }

  /** What `otp_flow` prints after reading the user's answer. */
  datatype FlowOutcome = FlowVerified | FlowRejected

  /** `otp_flow` with the user's answer given: it generates a default-length
      code from `draws` and compares the answer with it. */
  function OtpFlow(draws: seq<int>, entered: string): (r: FlowOutcome)
    requires ValidDraws(draws) && DefaultOtpLength <= |draws|
    ensures r == FlowVerified <==>
      |entered| == DefaultOtpLength && forall i :: 0 <= i < |entered| ==> entered[i] == Digits[draws[i]]
  {
    var otp := GenerateOtp(DefaultOtpLength, draws);
    if entered == otp then FlowVerified else FlowRejected
  }
}
