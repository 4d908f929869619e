/** The names of the per-client output files: client i writes to
    `"output_%d.txt" % i`, for i from 0 up to the number of clients. */
module OutputFiles {

  /** Whether a character is an ASCII decimal digit. */
  predicate IsDigit(c: char)
  {
    '0' <= c <= '9'
  }

  /** The digit character for a value below 10. */
  function Digit(d: nat): (c: char)
    requires d < 10
    ensures IsDigit(c)
  {
    (48 + d) as char
  }

  /** The value of a digit character. */
  function DigitValue(c: char): (d: nat)
    requires IsDigit(c)
    ensures d < 10
  {
    c as int - 48
  }

  /** `%d` of a non-negative integer: its decimal digits, most significant
      first, without leading zeros. */
  function DecimalString(n: nat): (s: string)
    ensures |s| > 0
    ensures forall k :: 0 <= k < |s| ==> IsDigit(s[k])
    ensures s[0] == '0' ==> n == 0
    decreases n
  {
    if n < 10 then [Digit(n)] else DecimalString(n / 10) + [Digit(n % 10)]
  }

  /** The number a string of decimal digits denotes. */
  function DecimalValue(s: string): nat
    requires forall k :: 0 <= k < |s| ==> IsDigit(s[k])
    decreases |s|
  {
    if s == [] then 0 else 10 * DecimalValue(s[..|s| - 1]) + DigitValue(s[|s| - 1])
  }

  /** Reading back the digits `%d` writes gives the number. */
  lemma {:induction false} DecimalRoundTrip(n: nat)
    ensures DecimalValue(DecimalString(n)) == n
    decreases n
  {
    var s := DecimalString(n);
    if n >= 10 {
      DecimalRoundTrip(n / 10);
      assert s[..|s| - 1] == DecimalString(n / 10);
    }
  }

  /** Distinct numbers have distinct decimal forms. */
  lemma DecimalInjective(m: nat, n: nat)
    requires DecimalString(m) == DecimalString(n)
    ensures m == n
  {
    DecimalRoundTrip(m);
    DecimalRoundTrip(n);
  }

  /** The output file of client i. */
  function OutputName(i: nat): string
  {
    "output_" + DecimalString(i) + ".txt"
  }

  /** The client number sits between the fixed prefix and suffix of its
      file name, so every client writes its own file. */
  lemma OutputNameInjective(i: nat, j: nat)
    requires OutputName(i) == OutputName(j)
    ensures i == j
  {
    var a := OutputName(i);
    var b := OutputName(j);
    assert a[7..|a| - 4] == DecimalString(i);
    assert b[7..|b| - 4] == DecimalString(j);
    DecimalInjective(i, j);
  }

  /** The loop that names the output files, one per client in client
      order; `range` of a non-positive count is empty. */
  method OutputFilenames(numClients: int) returns (names: seq<string>)
    ensures |names| == if numClients > 0 then numClients else 0
    ensures forall i :: 0 <= i < |names| ==> names[i] == OutputName(i)
    ensures forall i, j :: 0 <= i < j < |names| ==> names[i] != names[j]
  {
    var count := if numClients > 0 then numClients else 0;
    names := [];
    for i := 0 to count
      invariant |names| == i
      invariant forall k :: 0 <= k < i ==> names[k] == OutputName(k)
    {
      names := names + [OutputName(i)];
    }
    forall i, j | 0 <= i < j < |names| ensures names[i] != names[j] {
      if names[i] == names[j] {
        OutputNameInjective(i, j);
      }
    }
  }
}
