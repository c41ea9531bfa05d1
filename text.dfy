/**
 * Small text helpers: the reference-number format of new bookings and the
 * whitespace trimming routine.
 */
module Text {

  function DigitChar(d: int): char
    requires 0 <= d < 10
  {
    ('0' as int + d) as char
  }

  predicate IsDigit(c: char)
  {
    '0' <= c <= '9'
  }

  function DigitValue(c: char): int
    requires IsDigit(c)
  {
    c as int - '0' as int
  }

  /**
   * The reference number for the random value `n`: "R" followed by `n`
   * written with four digits, zero-padded (`sprintf("R%04d", n)`).
   */
  function RefNo(n: int): (r: string)
    requires 0 <= n < 10000
    ensures IsRefNo(r)
  {
    ['R', DigitChar(n / 1000), DigitChar(n / 100 % 10), DigitChar(n / 10 % 10), DigitChar(n % 10)]
  }

  /** The shape of a reference number: "R" and four digits. */
  predicate IsRefNo(r: string)
  {
    |r| == 5 && r[0] == 'R' && IsDigit(r[1]) && IsDigit(r[2]) && IsDigit(r[3]) && IsDigit(r[4])
  }

  /** The number a reference number stands for. */
  function RefNoValue(r: string): int
    requires IsRefNo(r)
  {
    1000 * DigitValue(r[1]) + 100 * DigitValue(r[2]) + 10 * DigitValue(r[3]) + DigitValue(r[4])
  }

  /** Formatting then reading back gives the number. */
  lemma RefNoRoundTrip(n: int)
    requires 0 <= n < 10000
    ensures RefNoValue(RefNo(n)) == n
  {
    var a, b, c, d := n / 1000, n / 100 % 10, n / 10 % 10, n % 10;
    assert n / 100 == 10 * a + b;
    assert n / 10 == 10 * (n / 100) + c;
    assert n == 10 * (n / 10) + d;
  }

  /**
   * Every "R"-and-four-digits string is the reference number of exactly one
   * value, so distinct values give distinct reference numbers.
   */
  lemma RefNoOnto(r: string)
    requires IsRefNo(r)
    ensures 0 <= RefNoValue(r) < 10000 && RefNo(RefNoValue(r)) == r
  {
    var n := RefNoValue(r);
    var a, b, c, d := DigitValue(r[1]), DigitValue(r[2]), DigitValue(r[3]), DigitValue(r[4]);
    assert n / 10 == 100 * a + 10 * b + c && n % 10 == d;
    assert n / 100 == 10 * a + b && n / 10 % 10 == c;
    assert n / 1000 == a && n / 100 % 10 == b;
  }

  lemma RefNoInjective(n: int, m: int)
    requires 0 <= n < 10000 && 0 <= m < 10000
    ensures RefNo(n) == RefNo(m) <==> n == m
  {
    RefNoRoundTrip(n);
    RefNoRoundTrip(m);
  }

  predicate IsBlank(c: char)
  {
    c == ' ' || c == '\t'
  }

  predicate AllBlank(s: string)
  {
    forall i :: 0 <= i < |s| ==> IsBlank(s[i])
  }

  function DropTrailingBlanks(s: string): (r: string)
    ensures r <= s
    decreases |s|
  {
    if s != [] && IsBlank(s[|s| - 1]) then DropTrailingBlanks(s[..|s| - 1]) else s
  }

  /**
   * The string a caller of `trimWhitespace` sees afterwards: the routine only
   * advances its own copy of the pointer past the leading spaces and tabs,
   * so those stay; it cuts the trailing ones off; and it leaves a string
   * that is empty or only spaces and tabs as it was.
   */
  function TrimmedAsSeen(s: string): (r: string)
    ensures r <= s
  {
    if AllBlank(s) then s else DropTrailingBlanks(s)
  }

  /** The characters up to the first NUL, which C takes for the string. */
  function CString(buf: seq<char>): string
    decreases |buf|
  {
    if buf == [] || buf[0] == '\0' then [] else [buf[0]] + CString(buf[1..])
  }

  lemma {:induction false} DropTrailingBlanksSpec(s: string)
    ensures DropTrailingBlanks(s) <= s
    ensures AllBlank(s[|DropTrailingBlanks(s)|..])
    ensures DropTrailingBlanks(s) != [] ==> !IsBlank(DropTrailingBlanks(s)[|DropTrailingBlanks(s)| - 1])
    decreases |s|
  {
    if s != [] && IsBlank(s[|s| - 1]) {
      var t := s[..|s| - 1];
      DropTrailingBlanksSpec(t);
      var k := |DropTrailingBlanks(t)|;
      assert s[k..] == t[k..] + [s[|s| - 1]];
    }
  }

  /**
   * What trimming promises: the result is a prefix of the string; when the
   * string has a character other than space or tab, the result keeps the
   * leading blanks, ends in a non-blank and only blanks were cut; otherwise
   * the string is unchanged.
   */
  lemma TrimmedAsSeenSpec(s: string)
    ensures TrimmedAsSeen(s) <= s
    ensures AllBlank(s) ==> TrimmedAsSeen(s) == s
    ensures !AllBlank(s) ==>
      var t := TrimmedAsSeen(s);
      t != [] && !IsBlank(t[|t| - 1]) && AllBlank(s[|t|..])
  {
    DropTrailingBlanksSpec(s);
  }

  /** Trimming twice is trimming once. */
  lemma TrimmedAsSeenIdempotent(s: string)
    ensures TrimmedAsSeen(TrimmedAsSeen(s)) == TrimmedAsSeen(s)
  {
    TrimmedAsSeenSpec(s);
    var t := TrimmedAsSeen(s);
    if !AllBlank(s) {
      assert !IsBlank(t[|t| - 1]);
    }
  }

  lemma {:induction false} CStringSpec(buf: seq<char>, n: nat)
    requires n < |buf| && buf[n] == '\0' && '\0' !in buf[..n]
    ensures CString(buf) == buf[..n]
    decreases n
  {
    if n > 0 {
      assert buf[0] == buf[..n][0];
      assert buf[1..][..n - 1] == buf[..n][1..];
      CStringSpec(buf[1..], n - 1);
    }
  }

  /**
   * `trimWhitespace` on a NUL-terminated buffer: skips leading blanks with a
   * local index, returns when it reaches the NUL, otherwise walks back from
   * the last character over blanks and writes a NUL after the last
   * non-blank. Only that one byte of the buffer changes.
   */
  method TrimWhitespace(buf: array<char>, ghost len: nat)
    requires len < buf.Length && buf[len] == '\0' && '\0' !in buf[..len]
    modifies buf
    ensures CString(buf[..]) == TrimmedAsSeen(old(CString(buf[..])))
    ensures AllBlank(old(buf[..len])) ==> buf[..] == old(buf[..])
    ensures !AllBlank(old(buf[..len])) ==>
      buf[..] == old(buf[..])[|TrimmedAsSeen(old(buf[..len]))| := '\0']
  {
    CStringSpec(buf[..], len);
    ghost var s := buf[..len];
    var str := 0;
    while buf[str] == ' ' || buf[str] == '\t'
      invariant 0 <= str <= len
      invariant forall j :: 0 <= j < str ==> IsBlank(s[j])
      decreases len - str
    {
      str := str + 1;
    }
    if buf[str] == '\0' {
      return;
    }
    assert !AllBlank(s);
    var n := str;
    while buf[n] != '\0'
      invariant str <= n <= len
      invariant '\0' !in buf[str..n]
      decreases len - n
    {
      n := n + 1;
    }
    assert n == len;
    var end := n - 1;
    while end > str && (buf[end] == ' ' || buf[end] == '\t')
      invariant str <= end < len
      invariant AllBlank(s[end + 1..])
    {
      end := end - 1;
    }
    TrimCut(s, str, end);
    buf[end + 1] := '\0';
    CStringSpec(buf[..], end + 1);
  }

  /** The cut `TrimWhitespace` makes is the one `TrimmedAsSeen` describes. */
  lemma TrimCut(s: string, str: nat, end: nat)
    requires str <= end < |s| && !IsBlank(s[str])
    requires AllBlank(s[end + 1..])
    requires end > str ==> !IsBlank(s[end])
    ensures TrimmedAsSeen(s) == s[..end + 1]
  {
    assert !AllBlank(s);
    DropTrailingBlanksSpec(s);
  }
}
