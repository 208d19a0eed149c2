/** Resume cursors: ids of the form "digits-digits", compared number by number. */
module RunSeq {
  import opened Prelude

  predicate IsDigit(c: char) {
    '0' <= c <= '9'
  }

  predicate AllDigits(text: string) {
    forall i :: 0 <= i < |text| ==> IsDigit(text[i])
  }

  /** Position of the first hyphen at or after a position, or the length. */
  function HyphenFrom(text: string, from: nat): (h: nat)
    requires from <= |text|
    ensures from <= h <= |text| && (h < |text| ==> text[h] == '-')
    decreases |text| - from
  {
    if from == |text| || text[from] == '-' then from else HyphenFrom(text, from + 1)
  }

  /** The whole text is digits, a hyphen, digits. */
  predicate IsRunSeq(text: string) {
    var h := HyphenFrom(text, 0);
    0 < h < |text| - 1 && AllDigits(text[..h]) && AllDigits(text[h + 1..])
  }

  const ORIGIN := "0-0"

  /** None stands for a missing value. */
  function NormalizeRunSeq(value: Option<string>): string {
    match value
    case None => ORIGIN
    case Some(text) => if IsRunSeq(Trim(text)) then Trim(text) else ORIGIN
  }

  function Decimal(digits: string): nat
    requires AllDigits(digits)
  {
    if digits == "" then 0
    else
      assert IsDigit(digits[|digits| - 1]);
      10 * Decimal(digits[..|digits| - 1]) + (digits[|digits| - 1] as int - '0' as int)
  }

  datatype Key = Key(major: nat, minor: nat)

  function ParseRunSeq(value: string): Key {
    var text := NormalizeRunSeq(Some(value));
    var h := HyphenFrom(text, 0);
    if IsRunSeq(text) then Key(Decimal(text[..h]), Decimal(text[h + 1..])) else Key(0, 0)
  }

  function CompareKeys(left: Key, right: Key): int {
    if left.major > right.major then 1
    else if left.major < right.major then -1
    else if left.minor > right.minor then 1
    else if left.minor < right.minor then -1
    else 0
  }

  function CompareRunSeq(incoming: string, current: string): int {
    CompareKeys(ParseRunSeq(incoming), ParseRunSeq(current))
  }

  lemma KeysOrdered(a: Key, b: Key, c: Key)
    ensures CompareKeys(a, b) == -CompareKeys(b, a)
    ensures CompareKeys(a, b) <= 0 && CompareKeys(b, c) <= 0 ==> CompareKeys(a, c) <= 0
    ensures CompareKeys(a, b) <= 0 && CompareKeys(b, c) < 0 ==> CompareKeys(a, c) < 0
    ensures CompareKeys(a, b) < 0 && CompareKeys(b, c) <= 0 ==> CompareKeys(a, c) < 0
  {
  }

  /** Comparing is a total order on the numbers, whatever the texts. */
  lemma CompareIsOrder(a: string, b: string, c: string)
    ensures CompareRunSeq(a, b) == -CompareRunSeq(b, a)
    ensures CompareRunSeq(a, b) <= 0 && CompareRunSeq(b, c) <= 0 ==> CompareRunSeq(a, c) <= 0
    ensures CompareRunSeq(a, b) <= 0 && CompareRunSeq(b, c) < 0 ==> CompareRunSeq(a, c) < 0
    ensures CompareRunSeq(a, b) < 0 && CompareRunSeq(b, c) <= 0 ==> CompareRunSeq(a, c) < 0
  {
    KeysOrdered(ParseRunSeq(a), ParseRunSeq(b), ParseRunSeq(c));
  }

  lemma OriginIsRunSeq()
    ensures IsRunSeq(ORIGIN) && ParseRunSeq(ORIGIN) == Key(0, 0)
  {
    assert HyphenFrom(ORIGIN, 0) == 1;
    assert ORIGIN[..1] == "0" && ORIGIN[2..] == "0" && "0"[..0] == "";
    TrimKeepsRunSeq(ORIGIN);
  }

  lemma TrimKeepsRunSeq(text: string)
    requires IsRunSeq(text)
    ensures Trim(text) == text
  {
    var h := HyphenFrom(text, 0);
    assert IsDigit(text[..h][0]) && IsDigit(text[h + 1..][|text| - h - 2]);
  }

  /** Normalising gives a well-formed id, and a second time changes nothing. */
  lemma NormalizeIsStable(value: Option<string>)
    ensures IsRunSeq(NormalizeRunSeq(value))
    ensures NormalizeRunSeq(Some(NormalizeRunSeq(value))) == NormalizeRunSeq(value)
  {
    OriginIsRunSeq();
    TrimKeepsRunSeq(NormalizeRunSeq(value));
  }

  /** A malformed id counts as the origin, which no cursor lets pass. */
  lemma MalformedNeverPasses(value: string, current: string)
    requires !IsRunSeq(Trim(value))
    ensures CompareRunSeq(NormalizeRunSeq(Some(value)), current) <= 0
  {
    OriginIsRunSeq();
  }

  // ------------------------------------------------------------ the numbers behind the texts

  function Digit(d: nat): char
    requires d < 10
  {
    "0123456789"[d]
  }

  function Digits(n: nat): string {
    if n < 10 then [Digit(n)] else Digits(n / 10) + [Digit(n % 10)]
  }

  function Zeros(k: nat): string {
    seq(k, _ => '0')
  }

  lemma {:induction false} DecimalSnoc(front: string, d: nat)
    requires AllDigits(front) && d < 10
    ensures AllDigits(front + [Digit(d)]) && Decimal(front + [Digit(d)]) == 10 * Decimal(front) + d
  {
    assert (front + [Digit(d)])[..|front|] == front;
  }

  lemma {:induction false} DecimalOfZeros(k: nat)
    ensures AllDigits(Zeros(k)) && Decimal(Zeros(k)) == 0
  {
    if k > 0 {
      DecimalOfZeros(k - 1);
      DecimalSnoc(Zeros(k - 1), 0);
      assert Zeros(k) == Zeros(k - 1) + [Digit(0)];
    }
  }

  lemma {:induction false} DecimalReadsDigits(k: nat, n: nat)
    ensures AllDigits(Zeros(k) + Digits(n)) && Decimal(Zeros(k) + Digits(n)) == n
    decreases n
  {
    if n < 10 {
      DecimalOfZeros(k);
      DecimalSnoc(Zeros(k), n);
    } else {
      DecimalReadsDigits(k, n / 10);
      DecimalSnoc(Zeros(k) + Digits(n / 10), n % 10);
      assert Zeros(k) + Digits(n) == (Zeros(k) + Digits(n / 10)) + [Digit(n % 10)];
    }
  }

  /** The text of a pair of numbers, with leading zeros. */
  function RunSeqText(i: nat, major: nat, j: nat, minor: nat): string {
    Zeros(i) + Digits(major) + "-" + Zeros(j) + Digits(minor)
  }

  lemma {:induction false} HyphenFound(text: string, from: nat, h: nat)
    requires from <= h < |text| && text[h] == '-' && forall i :: from <= i < h ==> text[i] != '-'
    ensures HyphenFrom(text, from) == h
    decreases h - from
  {
    if from < h {
      HyphenFound(text, from + 1, h);
    }
  }

  lemma HyphenSplits(left: string, right: string)
    requires left != "" && right != "" && AllDigits(left) && AllDigits(right)
    ensures var text := left + "-" + right;
            && HyphenFrom(text, 0) == |left| && text[..|left|] == left && text[|left| + 1..] == right
            && IsRunSeq(text)
  {
    HyphenFound(left + "-" + right, 0, |left|);
  }

  lemma {:induction false} PairIsRead(left: string, right: string)
    requires left != "" && right != "" && AllDigits(left) && AllDigits(right)
    ensures ParseRunSeq(left + "-" + right) == Key(Decimal(left), Decimal(right))
  {
    HyphenSplits(left, right);
    TrimKeepsRunSeq(left + "-" + right);
  }

  lemma TextIsRead(i: nat, major: nat, j: nat, minor: nat)
    ensures var text := RunSeqText(i, major, j, minor);
            IsRunSeq(text) && ParseRunSeq(text) == Key(major, minor)
  {
    var left, right := Zeros(i) + Digits(major), Zeros(j) + Digits(minor);
    assert RunSeqText(i, major, j, minor) == left + "-" + right;
    DecimalReadsDigits(i, major);
    DecimalReadsDigits(j, minor);
    HyphenSplits(left, right);
    PairIsRead(left, right);
  }

  /** One digit more behind a number. */
  lemma NumberSnoc(k: nat, n: nat, d: nat)
    requires d < 10
    ensures Zeros(k) + Digits(n) + [Digit(d)] ==
            if n == 0 then Zeros(k + 1) + Digits(d) else Zeros(k) + Digits(10 * n + d)
  {
    if n == 0 {
      assert Zeros(k + 1) == Zeros(k) + Digits(0);
    } else {
      assert Digits(10 * n + d) == Digits(n) + [Digit(d)];
      assert Zeros(k) + Digits(n) + [Digit(d)] == Zeros(k) + (Digits(n) + [Digit(d)]);
    }
  }

  /** Every digit sequence is a number with leading zeros. */
  lemma {:induction false} DigitsAreNumbers(text: string) returns (k: nat, n: nat)
    requires text != "" && AllDigits(text)
    ensures text == Zeros(k) + Digits(n)
  {
    var front, last := text[..|text| - 1], text[|text| - 1];
    var d := LastDigit(text);
    if front == "" {
      return 0, d;
    }
    k, n := DigitsAreNumbers(front);
    NumberSnoc(k, n, d);
    k, n := if n == 0 then k + 1 else k, if n == 0 then d else 10 * n + d;
  }

  lemma LastDigit(text: string) returns (d: nat)
    requires text != "" && AllDigits(text)
    ensures d < 10 && text == text[..|text| - 1] + [Digit(d)]
  {
    assert IsDigit(text[|text| - 1]);
    d := text[|text| - 1] as int - '0' as int;
  }

  /** Every well-formed id is the text of two numbers, so the law below speaks of all of them. */
  lemma {:induction false} EveryRunSeqIsText(text: string) returns (i: nat, major: nat, j: nat, minor: nat)
    requires IsRunSeq(text)
    ensures text == RunSeqText(i, major, j, minor)
  {
    var h := HyphenFrom(text, 0);
    i, major := DigitsAreNumbers(text[..h]);
    j, minor := DigitsAreNumbers(text[h + 1..]);
    assert text == text[..h] + ['-'] + text[h + 1..];
  }

  /** Ids compare as their numbers do, the first numbers first, whatever whitespace is around them. */
  lemma {:induction false} ComparesNumbers(i: nat, a: nat, j: nat, b: nat, k: nat, c: nat, l: nat, d: nat,
                                           before: string, after: string)
    requires AllSpace(before) && AllSpace(after)
    ensures var incoming, current := before + RunSeqText(i, a, j, b) + after, RunSeqText(k, c, l, d);
            && (CompareRunSeq(incoming, current) > 0 <==> a > c || (a == c && b > d))
            && (CompareRunSeq(incoming, current) < 0 <==> a < c || (a == c && b < d))
            && CompareRunSeq(current, incoming) == -CompareRunSeq(incoming, current)
  {
    var text := RunSeqText(i, a, j, b);
    TextIsRead(i, a, j, b);
    TextIsRead(k, c, l, d);
    PaddedIsRead(before, text, after);
  }

  lemma PaddedIsRead(before: string, text: string, after: string)
    requires AllSpace(before) && AllSpace(after) && IsRunSeq(text)
    ensures ParseRunSeq(before + text + after) == ParseRunSeq(text)
  {
    var h := HyphenFrom(text, 0);
    assert IsDigit(text[..h][0]) && IsDigit(text[h + 1..][|text| - h - 2]);
    TrimPadded(before, text, after);
    TrimKeepsRunSeq(text);
  }
}
