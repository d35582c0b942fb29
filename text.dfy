/** Text helpers the renderings rely on: the StringBuilder's decimal
    rendering of an int, and lines joined by (and split at) a line break. */
module Text {

  /** The line break StringBuilder.AppendLine writes, taken as one character. */
  const NL: char := '\n'

  /** The character of a decimal digit 0..9. */
  function DigitChar(d: int): (c: char)
    requires 0 <= d <= 9
    ensures '0' <= c <= '9' && c as int - '0' as int == d
  {
    ('0' as int + d) as char
  }

  /** The decimal text of a natural number, most significant digit first. */
  function NatText(n: nat): (s: string)
    ensures |s| >= 1 && forall k :: 0 <= k < |s| ==> '0' <= s[k] <= '9'
  {
    if n < 10 then [DigitChar(n)] else NatText(n / 10) + [DigitChar(n % 10)]
  }

  /** What StringBuilder.Append(int) appends: the decimal text, with a
      leading '-' for a negative number. */
  function DecimalText(n: int): (s: string)
    ensures |s| >= 1 && NL !in s
  {
    if n < 0 then "-" + NatText(-n) else NatText(n)
  }

  /** A digit 1..9 is written as its one character. */
  lemma DecimalOfDigit(n: int)
    requires 1 <= n <= 9
    ensures DecimalText(n) == [DigitChar(n)]
  {
  }

  /** Reads back the decimal text of a natural number. */
  function NatValue(s: string): (n: nat)
    requires forall k :: 0 <= k < |s| ==> '0' <= s[k] <= '9'
  {
    if s == [] then 0
    else NatValue(s[..|s| - 1]) * 10 + (s[|s| - 1] as int - '0' as int)
  }

  /** The decimal text of a number reads back as that number. */
  lemma {:induction false} NatTextRoundTrip(n: nat)
    ensures NatValue(NatText(n)) == n
  {
    if n >= 10 {
      NatTextRoundTrip(n / 10);
      var s := NatText(n);
      assert s[..|s| - 1] == NatText(n / 10);
    }
  }

  /** Lines separated by one line break each, none after the last one. */
  function Join(lines: seq<string>): string
  {
    if |lines| == 0 then ""
    else if |lines| == 1 then lines[0]
    else Join(lines[..|lines| - 1]) + [NL] + lines[|lines| - 1]
  }

  /** The position of the last line break in s. */
  function LastBreak(s: string): (k: int)
    requires NL in s
    ensures 0 <= k < |s| && s[k] == NL
    ensures forall j :: k < j < |s| ==> s[j] != NL
  {
    if s[|s| - 1] == NL then |s| - 1
    else
      assert NL in s[..|s| - 1] by {
        var j :| 0 <= j < |s| && s[j] == NL;
        assert s[..|s| - 1][j] == NL;
      }
      LastBreak(s[..|s| - 1])
  }

  /** s cut at every line break. */
  function Split(s: string): (lines: seq<string>)
    ensures |lines| >= 1
    decreases |s|
  {
    if NL !in s then [s]
    else
      var k := LastBreak(s);
      Split(s[..k]) + [s[k + 1..]]
  }

  ghost predicate NoBreaks(lines: seq<string>) {
    forall i :: 0 <= i < |lines| ==> NL !in lines[i]
  }

  /** Splitting undoes joining, for at least one line and lines without
      breaks of their own. */
  lemma {:induction false} SplitJoin(lines: seq<string>)
    requires |lines| >= 1 && NoBreaks(lines)
    ensures Split(Join(lines)) == lines
  {
    if |lines| > 1 {
      var init, last := lines[..|lines| - 1], lines[|lines| - 1];
      var j := Join(init);
      var s := j + [NL] + last;
      assert Join(lines) == s;
      assert NL in s by { assert s[|j|] == NL; }
      var k := LastBreak(s);
      assert k == |j|;
      assert s[..k] == j;
      assert s[k + 1..] == last;
      SplitJoin(init);
      assert init + [last] == lines;
    }
  }

  /** Concatenation regroups. */
  lemma AppendAssoc(a: string, b: string, c: string)
    ensures (a + b) + c == a + (b + c)
  {
  }

  /** Joining one line more of a list: its prefix, a break and that line. */
  lemma JoinPrefix(lines: seq<string>, k: int)
    requires 1 <= k < |lines|
    ensures Join(lines[..k + 1]) == Join(lines[..k]) + [NL] + lines[k]
  {
    assert lines[..k + 1][..k] == lines[..k];
  }

  /** The same, for text that ends in a break after every line so far. */
  lemma JoinPrefixBreak(lines: seq<string>, k: int)
    requires 1 <= k < |lines|
    ensures Join(lines[..k + 1]) + [NL] == (Join(lines[..k]) + [NL]) + (lines[k] + [NL])
  {
    JoinPrefix(lines, k);
    AppendAssoc(Join(lines[..k]) + [NL], lines[k], [NL]);
  }
}
