/** String helpers of the Go standard library that the codecs use, on ASCII text. */
module Text {
  import opened Domain

  predicate IsSpace(c: char) {
    c == ' ' || c == '\t' || c == '\n' || c == '\r' || c as int == 11 || c as int == 12
  }

  /** The six ASCII white-space characters: blank, and the controls from tab to carriage return. */
  lemma SpaceCharacters(c: char)
    ensures IsSpace(c) <==> c as int == 32 || 9 <= c as int <= 13
  { }

  predicate NoSpace(s: string) {
    forall i :: 0 <= i < |s| ==> !IsSpace(s[i])
  }

  function TrimLeft(s: string): string {
    if s != "" && IsSpace(s[0]) then TrimLeft(s[1..]) else s
  }

  function TrimRight(s: string): string {
    if s != "" && IsSpace(s[|s| - 1]) then TrimRight(s[..|s| - 1]) else s
  }

  /** strings.TrimSpace */
  function TrimSpace(s: string): string { TrimRight(TrimLeft(s)) }

  function UpperChar(c: char): char {
    if 'a' <= c <= 'z' then (c as int - 32) as char else c
  }

  /** strings.ToUpper */
  function ToUpper(s: string): (t: string)
    ensures |t| == |s|
    ensures forall i :: 0 <= i < |s| ==> t[i] as int == s[i] as int - if 'a' <= s[i] <= 'z' then 32 else 0
  {
    seq(|s|, i requires 0 <= i < |s| => UpperChar(s[i]))
  }

  function WordLength(s: string): (n: nat)
    ensures n <= |s|
    ensures forall i :: 0 <= i < n ==> !IsSpace(s[i])
    ensures n < |s| ==> IsSpace(s[n])
  {
    if s == "" || IsSpace(s[0]) then 0
    else
      var n := WordLength(s[1..]);
      assert forall i :: 0 < i < n + 1 ==> s[i] == s[1..][i - 1];
      n + 1
  }

  /** strings.Fields: the maximal runs of non-space characters. */
  function Fields(s: string): (fs: seq<string>)
    decreases |s|
  {
    if s == "" then []
    else if IsSpace(s[0]) then Fields(s[1..])
    else
      var n := WordLength(s);
      [s[..n]] + Fields(s[n..])
  }

  lemma WordLengthOfWord(w: string, rest: string)
    requires NoSpace(w)
    requires rest == "" || IsSpace(rest[0])
    ensures WordLength(w + rest) == |w|
  {
    var s := w + rest;
    assert forall i :: 0 <= i < |w| ==> s[i] == w[i];
    assert rest != "" ==> s[|w|] == rest[0];
  }

  lemma FieldsOfLastWord(w: string)
    requires w != "" && NoSpace(w)
    ensures Fields(w) == [w]
  {
    WordLengthOfWord(w, "");
    assert w + "" == w;
    assert w[|w|..] == "";
  }

  /** Splitting off a leading word. */
  lemma FieldsOfWord(w: string, rest: string)
    requires w != "" && NoSpace(w)
    requires rest != "" && IsSpace(rest[0])
    ensures Fields(w + rest) == [w] + Fields(rest[1..])
  {
    var s := w + rest;
    WordLengthOfWord(w, rest);
    assert s[0] == w[0] && s[..|w|] == w && s[|w|..] == rest;
  }

  lemma FieldsOfTwo(a: string, b: string)
    requires a != "" && NoSpace(a) && b != "" && NoSpace(b)
    ensures Fields(a + " " + b) == [a, b]
    ensures TrimSpace(a + " " + b) == a + " " + b
  {
    assert a + " " + b == a + (" " + b);
    FieldsOfWord(a, " " + b);
    assert (" " + b)[1..] == b;
    FieldsOfLastWord(b);
    TrimSpaceOfTight(a + " " + b);
  }

  lemma FieldsOfThree(a: string, b: string, c: string)
    requires a != "" && NoSpace(a) && b != "" && NoSpace(b) && c != "" && NoSpace(c)
    ensures Fields(a + " " + b + " " + c) == [a, b, c]
    ensures TrimSpace(a + " " + b + " " + c) == a + " " + b + " " + c
  {
    hide Fields, TrimSpace, WordLength;
    var rest := b + " " + c;
    assert a + " " + b + " " + c == a + (" " + rest);
    FieldsOfWord(a, " " + rest);
    assert (" " + rest)[1..] == rest;
    FieldsOfTwo(b, c);
    TrimSpaceOfTight(a + (" " + rest));
  }

  lemma {:induction false} FieldsOfWords(words: seq<string>)
    requires words != [] && forall i :: 0 <= i < |words| ==> words[i] != "" && NoSpace(words[i])
    ensures Fields(Join(words, ' ')) == words
    ensures var s := Join(words, ' '); s != "" && !IsSpace(s[0]) && !IsSpace(s[|s| - 1])
  {
    hide Fields, WordLength;
    if |words| == 1 {
      FieldsOfLastWord(words[0]);
    } else {
      var rest := Join(words[1..], ' ');
      FieldsOfWords(words[1..]);
      FieldsOfWord(words[0], " " + rest);
      assert (" " + rest)[1..] == rest;
      assert Join(words, ' ') == words[0] + (" " + rest);
    }
  }

  lemma {:induction false} FieldsAreWords(s: string)
    ensures forall i :: 0 <= i < |Fields(s)| ==> Fields(s)[i] != "" && NoSpace(Fields(s)[i])
    decreases |s|
  {
    if s != "" {
      if IsSpace(s[0]) {
        FieldsAreWords(s[1..]);
      } else {
        FieldsAreWords(s[WordLength(s)..]);
      }
    }
  }

  /** Exactly the all-space strings have no field, and exactly they trim to nothing. */
  lemma {:induction false} BlankHasNoFields(s: string)
    ensures Fields(s) == [] <==> TrimLeft(s) == ""
    ensures TrimSpace(s) == "" <==> TrimLeft(s) == ""
    decreases |s|
  {
    if s != "" {
      if IsSpace(s[0]) {
        BlankHasNoFields(s[1..]);
      } else {
        TrimRightKeeps(s, 0);
      }
    }
  }

  lemma {:induction false} TrimRightKeeps(s: string, i: nat)
    requires i < |s| && !IsSpace(s[i])
    ensures i < |TrimRight(s)| && TrimRight(s)[i] == s[i]
  {
    if IsSpace(s[|s| - 1]) {
      TrimRightKeeps(s[..|s| - 1], i);
    }
  }

  /** TrimSpace takes off white space only, at both ends, and all of it. */
  lemma TrimSpaceCuts(s: string) returns (lo: nat, hi: nat)
    ensures lo <= hi <= |s| && TrimSpace(s) == s[lo..hi]
    ensures forall i :: 0 <= i < lo || hi <= i < |s| ==> IsSpace(s[i])
    ensures lo < hi ==> !IsSpace(s[lo]) && !IsSpace(s[hi - 1])
  {
    lo := TrimLeftCuts(s);
    var n := TrimRightCuts(s[lo..]);
    hi := lo + n;
    assert s[lo..][..n] == s[lo..hi];
    assert forall i :: n <= i < |s[lo..]| ==> s[lo..][i] == s[lo + i];
    forall i | hi <= i < |s| ensures IsSpace(s[i]) {
      assert s[lo..][i - lo] == s[i];
    }
  }

  lemma {:induction false} TrimLeftCuts(s: string) returns (lo: nat)
    ensures lo <= |s| && TrimLeft(s) == s[lo..]
    ensures forall i :: 0 <= i < lo ==> IsSpace(s[i])
    ensures lo < |s| ==> !IsSpace(s[lo])
  {
    if s != "" && IsSpace(s[0]) {
      var n := TrimLeftCuts(s[1..]);
      lo := n + 1;
      assert s[1..][n..] == s[lo..];
      assert forall i :: 0 < i < lo ==> s[i] == s[1..][i - 1];
    } else {
      lo := 0;
    }
  }

  lemma {:induction false} TrimRightCuts(s: string) returns (n: nat)
    ensures n <= |s| && TrimRight(s) == s[..n]
    ensures forall i :: n <= i < |s| ==> IsSpace(s[i])
    ensures n > 0 ==> !IsSpace(s[n - 1])
  {
    if s != "" && IsSpace(s[|s| - 1]) {
      var front := s[..|s| - 1];
      n := TrimRightCuts(front);
      assert front[..n] == s[..n];
      assert forall i :: n <= i < |front| ==> front[i] == s[i];
    } else {
      n := |s|;
    }
  }

  /** Text that starts and ends with a non-space is left alone by TrimSpace. */
  lemma TrimSpaceOfTight(s: string)
    requires s != "" ==> !IsSpace(s[0]) && !IsSpace(s[|s| - 1])
    ensures TrimSpace(s) == s
  { }

  // ---------------------------------------------------------------- decimal integers

  function DigitChar(d: int): char
    requires 0 <= d < 10
  {
    ('0' as int + d) as char
  }

  predicate IsDigit(c: char) { '0' <= c <= '9' }

  function Itoa(n: nat): (s: string)
    ensures s != ""
  {
    if n < 10 then [DigitChar(n)] else Itoa(n / 10) + [DigitChar(n % 10)]
  }

  /** The %d form of an integer. */
  function FormatInt(n: int): string {
    if n < 0 then "-" + Itoa(-n) else Itoa(n)
  }

  function DigitsValue(s: string): Option<nat> {
    if s == "" then Some(0)
    else if !IsDigit(s[|s| - 1]) then None
    else
      match DigitsValue(s[..|s| - 1])
      case None => None
      case Some(v) => Some(10 * v + (s[|s| - 1] as int - '0' as int))
  }

  const INT64_LIMIT := 0x8000_0000_0000_0000

  function Pow10(k: nat): (p: nat)
    ensures p >= 1
  {
    if k == 0 then 1 else 10 * Pow10(k - 1)
  }

  lemma DivideTwice(n: nat, p: nat)
    requires p >= 1
    ensures n / 10 / p == n / (10 * p)
  {
    var q, r := n / 10 / p, n / 10 % p;
    assert n / 10 == q * p + r;
    assert n == q * (10 * p) + (10 * r + n % 10);
    QuotientIs(n, 10 * p, q, 10 * r + n % 10);
  }

  lemma Multiples(a: int, b: int, d: nat)
    ensures a <= b ==> a * d <= b * d
  { }

  lemma QuotientIs(n: nat, d: nat, q: nat, r: nat)
    requires n == q * d + r && r < d
    ensures n / d == q
  {
    Multiples(n / d + 1, q, d);
    Multiples(q + 1, n / d, d);
  }

  /** Decimal text: from the right, the k-th character is the digit of weight 10^k, and no zero leads. */
  lemma {:induction false} ItoaDigits(n: nat, k: nat)
    requires k < |Itoa(n)|
    ensures Itoa(n)[|Itoa(n)| - 1 - k] == "0123456789"[n / Pow10(k) % 10]
    ensures |Itoa(n)| > 1 ==> Itoa(n)[0] != '0'
  {
    DigitCharacter(n % 10);
    if n >= 10 {
      ItoaDigits(n / 10, if k == 0 then 0 else k - 1);
      LeadingDigit(n / 10);
      if k > 0 {
        DivideTwice(n, Pow10(k - 1));
      }
    }
  }

  lemma DigitCharacter(d: int)
    requires 0 <= d < 10
    ensures DigitChar(d) == "0123456789"[d]
  { }

  lemma LeadingDigit(n: nat)
    requires n >= 1
    ensures Itoa(n)[0] != '0'
  {
    if n >= 10 {
      LeadingDigit(n / 10);
    }
  }

  /** strconv.ParseInt(s, 10, 64) */
  function ParseInt64(s: string): Result<int, string> {
    var negative := s != "" && s[0] == '-';
    var digits := if s != "" && (s[0] == '-' || s[0] == '+') then s[1..] else s;
    if digits == "" then Err("invalid syntax")
    else
      match DigitsValue(digits)
      case None => Err("invalid syntax")
      case Some(v) =>
        var n: int := if negative then 0 - v else v;
        if -INT64_LIMIT <= n < INT64_LIMIT then Ok(n) else Err("value out of range")
  }

  lemma {:induction false} ItoaRoundTrip(n: nat)
    ensures DigitsValue(Itoa(n)) == Some(n)
    ensures forall i :: 0 <= i < |Itoa(n)| ==> IsDigit(Itoa(n)[i])
  {
    if n >= 10 {
      ItoaRoundTrip(n / 10);
      assert Itoa(n)[..|Itoa(n)| - 1] == Itoa(n / 10);
    }
  }

  lemma ParseDigits(digits: string, v: nat, negative: bool)
    requires digits != "" && IsDigit(digits[0]) && DigitsValue(digits) == Some(v)
    ensures var n: int := if negative then 0 - v else v;
      ParseInt64(if negative then "-" + digits else digits)
        == if -INT64_LIMIT <= n < INT64_LIMIT then Ok(n) else Err("value out of range")
  {
    hide DigitsValue;
    if negative {
      assert ("-" + digits)[1..] == digits;
    }
  }

  /** Printing and parsing an integer gives it back when it fits in 64 bits, and an error otherwise. */
  lemma FormatIntRoundTrip(n: int)
    ensures ParseInt64(FormatInt(n))
         == if -INT64_LIMIT <= n < INT64_LIMIT then Ok(n) else Err("value out of range")
    ensures ParseInt64(FormatInt(n)) == Ok(n) <==> -9223372036854775808 <= n <= 9223372036854775807
    ensures FormatInt(n) != "" && NoSpace(FormatInt(n))
  {
    var v := if n < 0 then -n else n;
    ItoaRoundTrip(v);
    hide Itoa, DigitsValue, ParseInt64;
    ParseDigits(Itoa(v), v, n < 0);
    assert forall i :: 0 <= i < |FormatInt(n)| ==> IsDigit(FormatInt(n)[i]) || FormatInt(n)[i] == '-';
  }

  /** The text after an optional sign. */
  function AfterSign(s: string): string {
    if s != "" && s[0] in "+-" then s[1..] else s
  }

  lemma {:induction false} DigitsOnly(s: string)
    ensures DigitsValue(s).Some? <==> forall i :: 0 <= i < |s| ==> s[i] in "0123456789"
  {
    if s != "" {
      var front, c := s[..|s| - 1], s[|s| - 1];
      DigitsOnly(front);
      assert s == front + [c];
      assert IsDigit(c) <==> c in "0123456789" by {
        if IsDigit(c) {
          DigitCharacter(c as int - '0' as int);
        }
      }
    }
  }

  /** A number is an optional sign and at least one digit; a plus sign changes nothing, and a minus sign
      negates. */
  lemma ParseIntSyntax(s: string)
    ensures ParseInt64(s) == Err("invalid syntax")
       <==> AfterSign(s) == "" || exists i :: 0 <= i < |AfterSign(s)| && AfterSign(s)[i] !in "0123456789"
    ensures ParseInt64(s).Ok? && s[0] == '+' ==> ParseInt64(s) == ParseInt64(AfterSign(s))
    ensures ParseInt64(s).Ok? && s[0] == '-' && AfterSign(s)[0] != '-' && ParseInt64(AfterSign(s)).Ok? ==>
      ParseInt64(s).value == -ParseInt64(AfterSign(s)).value
  {
    DigitsOnly(AfterSign(s));
    hide DigitsValue;
  }

  // ---------------------------------------------------------------- separators

  function Split(s: string, sep: char): (fs: seq<string>)
    ensures fs != []
  {
    if s == "" then [""]
    else
      var rest := Split(s[1..], sep);
      if s[0] == sep then [""] + rest else [[s[0]] + rest[0]] + rest[1..]
  }

  function Join(fs: seq<string>, sep: char): string
    requires fs != []
  {
    if |fs| == 1 then fs[0] else fs[0] + [sep] + Join(fs[1..], sep)
  }

  lemma {:induction false} SplitOfPlain(f: string, sep: char)
    requires sep !in f
    ensures Split(f, sep) == [f]
  {
    if f != "" {
      SplitOfPlain(f[1..], sep);
      assert [f[0]] + f[1..] == f;
    }
  }

  lemma {:induction false} SplitAtSeparator(f: string, rest: string, sep: char)
    requires sep !in f
    ensures Split(f + [sep] + rest, sep) == [f] + Split(rest, sep)
  {
    var s := f + [sep] + rest;
    if f == "" {
      assert s[1..] == rest;
    } else {
      SplitAtSeparator(f[1..], rest, sep);
      assert s[1..] == f[1..] + [sep] + rest;
      assert [f[0]] + f[1..] == f;
    }
  }

  /** Joining fields that do not hold the separator and splitting again gives them back. */
  lemma {:induction false} SplitInvertsJoin(fs: seq<string>, sep: char)
    requires fs != []
    requires forall i :: 0 <= i < |fs| ==> sep !in fs[i]
    ensures Split(Join(fs, sep), sep) == fs
  {
    if |fs| == 1 {
      SplitOfPlain(fs[0], sep);
    } else {
      SplitInvertsJoin(fs[1..], sep);
      SplitAtSeparator(fs[0], Join(fs[1..], sep), sep);
    }
  }
}
