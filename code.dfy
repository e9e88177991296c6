/** Package `code`: session codes drawn from a random oracle
    (internal/pkg/code/generator.go). `rand.IntN(26)` is not modelled; its
    five results are passed in as `draws`. */
module Code {
  import opened Base

  const CODE_LENGTH := 5
  const ALPHABET_SIZE := 26
  /** ASCII 'A'. */
  const BASE_LETTER := 65

  /** Five results of `rand.IntN(26)`, each in [0, 26). */
  predicate ValidDraws(draws: seq<int>) {
    |draws| == CODE_LENGTH && forall i :: 0 <= i < |draws| ==> 0 <= draws[i] < ALPHABET_SIZE
  }

  /** A session code: five letters in 'A'..'Z'. */
  predicate IsCode(s: string) {
    |s| == CODE_LENGTH && forall i :: 0 <= i < |s| ==> 'A' <= s[i] <= 'Z'
  }

  /** `byte(randNum + 65)`: Go's conversion to byte keeps the low eight bits. */
  function ToByte(n: int): byte {
    ((n + BASE_LETTER) % 256) as byte
  }

  /** `string(buf)` for a buffer of ASCII bytes. */
  function AsciiString(buf: Bytes): (s: string)
    requires forall i :: 0 <= i < |buf| ==> buf[i] < 128
    ensures |s| == |buf| && forall i :: 0 <= i < |s| ==> s[i] as int == buf[i] as int
  {
    seq(|buf|, i requires 0 <= i < |buf| => buf[i] as int as char)
  }

  /** The code a given sequence of draws produces. */
  function CodeOf(draws: seq<int>): (s: string)
    requires ValidDraws(draws)
    ensures IsCode(s)
    ensures forall i :: 0 <= i < CODE_LENGTH ==> s[i] as int == BASE_LETTER + draws[i]
  {
    AsciiString(seq(CODE_LENGTH, i requires 0 <= i < CODE_LENGTH => ToByte(draws[i])))
  }

  /** `Generate`: fills a five-byte buffer, one draw per position, and converts it. */
  method Generate(draws: seq<int>) returns (s: string)
    requires ValidDraws(draws)
    ensures IsCode(s)
    ensures s == CodeOf(draws)
  {
    var buf := new byte[CODE_LENGTH];
    for i := 0 to buf.Length
      invariant forall j :: 0 <= j < i ==> buf[j] == ToByte(draws[j])
    {
      var randNum := draws[i];
      buf[i] := ToByte(randNum);
    }
    s := AsciiString(buf[..]);
  }

  /** The draws that produce a code: the inverse of CodeOf. */
  function DrawsOf(s: string): (draws: seq<int>)
    requires IsCode(s)
    ensures ValidDraws(draws)
  {
    seq(CODE_LENGTH, i requires 0 <= i < CODE_LENGTH => s[i] as int - BASE_LETTER)
  }

  /** Round trip: the draws read back from a code produce that code again. */
  lemma CodeOfDrawsOf(s: string)
    requires IsCode(s)
    ensures CodeOf(DrawsOf(s)) == s
  {
    var t := CodeOf(DrawsOf(s));
    assert forall i :: 0 <= i < CODE_LENGTH ==> t[i] as int == s[i] as int;
  }

  /** The code determines the draws: CodeOf is one-to-one. */
  lemma DrawsOfCodeOf(draws: seq<int>)
    requires ValidDraws(draws)
    ensures DrawsOf(CodeOf(draws)) == draws
  {
  }

  /** Surjectivity, stated with an existential. */
  lemma EveryCodeIsGenerated(s: string)
    requires IsCode(s)
    ensures exists draws :: ValidDraws(draws) && CodeOf(draws) == s
  {
    CodeOfDrawsOf(s);
  }
}
