/**
  The strings the key store prints: channel names "type#src#dst" and keys "src_dst_number".  Both are
  injective, so that distinct channels have distinct queues and distinct numbers give distinct keys.
 */
module KeyNames {
  import opened Tokenizer

  function Digit(d: nat): char
    requires d < 10
  {
    ['0', '1', '2', '3', '4', '5', '6', '7', '8', '9'][d]
  }

  predicate IsDigit(c: char) {
    '0' <= c <= '9'
  }

  /** %d for a number that is not negative. */
  function Digits(n: nat): (s: string)
    ensures s != ""
  {
    if n < 10 then [Digit(n)] else Digits(n / 10) + [Digit(n % 10)]
  }

  /** %d */
  function Decimal(i: int): string {
    if i < 0 then "-" + Digits(-i) else Digits(i)
  }

  lemma {:induction false} DigitsOnly(n: nat)
    ensures forall k :: 0 <= k < |Digits(n)| ==> IsDigit(Digits(n)[k])
  {
    if n >= 10 {
      DigitsOnly(n / 10);
    }
  }

  lemma DigitInjective(d: nat, e: nat)
    requires d < 10 && e < 10 && Digit(d) == Digit(e)
    ensures d == e
  {
  }

  lemma {:induction false} DigitsInjective(m: nat, n: nat)
    requires Digits(m) == Digits(n)
    ensures m == n
    decreases m
  {
    var s, t := Digits(m), Digits(n);
    assert s[|s| - 1] == Digit(m % 10) && t[|t| - 1] == Digit(n % 10);
    DigitInjective(m % 10, n % 10);
    if m >= 10 && n >= 10 {
      assert Digits(m / 10) == s[..|s| - 1] == t[..|t| - 1] == Digits(n / 10);
      DigitsInjective(m / 10, n / 10);
    }
  }

  /** The number that a string of digits denotes. */
  function Value(s: string): int {
    if s == "" then 0 else 10 * Value(s[..|s| - 1]) + (s[|s| - 1] as int - '0' as int)
  }

  lemma {:induction false} DigitsValue(n: nat)
    ensures Value(Digits(n)) == n
  {
    var s := Digits(n);
    assert s[|s| - 1] == Digit(n % 10) && Digit(n % 10) as int == '0' as int + n % 10;
    if n >= 10 {
      DigitsValue(n / 10);
      assert s[..|s| - 1] == Digits(n / 10);
    } else {
      assert s[..0] == "";
    }
  }

  function Pow10(k: nat): (p: nat)
    ensures p > 0
  {
    if k == 0 then 1 else 10 * Pow10(k - 1)
  }

  /** How many digits a number has. */
  lemma {:induction false} DigitsLength(n: nat, k: nat)
    requires k > 0
    ensures |Digits(n)| <= k <==> n < Pow10(k)
    decreases k
  {
    assert Pow10(1) == 10 * Pow10(0);
    if k == 1 {
    } else if n >= 10 {
      DigitsLength(n / 10, k - 1);
    } else {
      assert Pow10(k) == 10 * Pow10(k - 1);
    }
  }

  lemma {:induction false} ValueBound(s: string)
    requires forall k :: 0 <= k < |s| ==> IsDigit(s[k])
    ensures 0 <= Value(s) < Pow10(|s|)
  {
    if s != "" {
      ValueBound(s[..|s| - 1]);
    }
  }

  /** The first k digits read as the number itself exactly if there are no more. */
  lemma FirstDigits(n: nat, k: nat)
    requires k > 0
    ensures var s := Digits(n); Value(if |s| <= k then s else s[..k]) == n <==> n < Pow10(k)
  {
    DigitsValue(n);
    DigitsLength(n, k);
    DigitsOnly(n);
    var s := Digits(n);
    if |s| > k {
      ValueBound(s[..k]);
    }
  }

  lemma DecimalInjective(i: int, j: int)
    requires Decimal(i) == Decimal(j)
    ensures i == j
  {
    SignFirst(i);
    SignFirst(j);
    if i < 0 {
      assert Decimal(i)[1..] == Digits(-i) && Decimal(j)[1..] == Digits(-j);
      DigitsInjective(-i, -j);
    } else {
      DigitsInjective(i, j);
    }
  }

  lemma SignFirst(i: int)
    ensures Decimal(i) != "" && (Decimal(i)[0] == '-' <==> i < 0)
  {
    DigitsOnly(if i < 0 then -i else i);
  }

  lemma DecimalHasNo(i: int, c: char)
    requires c != '-' && !IsDigit(c)
    ensures c !in Decimal(i)
  {
    DigitsOnly(if i < 0 then -i else i);
  }

  lemma FirstSeparator(a: string, b: string, sep: char)
    requires sep !in a
    ensures (a + [sep] + b)[|a|] == sep
    ensures forall k :: 0 <= k < |a| ==> (a + [sep] + b)[k] != sep
  {
    forall k | 0 <= k < |a|
      ensures (a + [sep] + b)[k] != sep
    {
      assert (a + [sep] + b)[k] == a[k];
    }
  }

  /** A string is split in only one way at the first separator. */
  lemma SplitOnce(a: string, b: string, a': string, b': string, sep: char)
    requires a + [sep] + b == a' + [sep] + b' && sep !in a && sep !in a'
    ensures a == a' && b == b'
  {
    var s, t := a + [sep] + b, a' + [sep] + b';
    FirstSeparator(a, b, sep);
    FirstSeparator(a', b', sep);
    assert |a| == |a'|;
    assert a == s[..|a|] && a' == t[..|a'|] && b == s[|a| + 1..] && b' == t[|a'| + 1..];
  }

  // ----- Channels -----

  /** One queue of keys: a kind of link, a source rank and a destination rank. */
  datatype Channel = Channel(kind: string, src: int, dst: int)

  /** "%s#%d#%d" */
  function ChannelName(c: Channel): string {
    c.kind + "#" + (Decimal(c.src) + "#" + Decimal(c.dst))
  }

  /** Distinct channels have distinct names, as long as kinds contain no '#'. */
  lemma ChannelNameInjective(c: Channel, d: Channel)
    requires '#' !in c.kind && '#' !in d.kind
    ensures ChannelName(c) == ChannelName(d) <==> c == d
  {
    if ChannelName(c) == ChannelName(d) {
      DecimalHasNo(c.src, '#');
      DecimalHasNo(d.src, '#');
      SplitOnce(c.kind, Decimal(c.src) + "#" + Decimal(c.dst), d.kind, Decimal(d.src) + "#" + Decimal(d.dst), '#');
      SplitOnce(Decimal(c.src), Decimal(c.dst), Decimal(d.src), Decimal(d.dst), '#');
      DecimalInjective(c.src, d.src);
      DecimalInjective(c.dst, d.dst);
    }
  }

  // ----- Keys -----

  /** "%d_%d_%lld" */
  function KeyText(src: int, dst: int, number: nat): (s: string)
    ensures s != ""
  {
    Decimal(src) + "_" + (Decimal(dst) + "_" + Digits(number))
  }

  /** A key tells its number, and the ranks it was made for. */
  lemma KeyTextInjective(src: int, dst: int, n: nat, src': int, dst': int, n': nat)
    requires KeyText(src, dst, n) == KeyText(src', dst', n')
    ensures src == src' && dst == dst' && n == n'
  {
    DecimalHasNo(src, '_');
    DecimalHasNo(src', '_');
    DecimalHasNo(dst, '_');
    DecimalHasNo(dst', '_');
    SplitOnce(Decimal(src), Decimal(dst) + "_" + Digits(n), Decimal(src'), Decimal(dst') + "_" + Digits(n'), '_');
    SplitOnce(Decimal(dst), Digits(n), Decimal(dst'), Digits(n'), '_');
    DecimalInjective(src, src');
    DecimalInjective(dst, dst');
    DigitsInjective(n, n');
  }

  /** The parts of a printed key, read back: source, destination, number. */
  lemma KeyTextFields(src: int, dst: int, number: nat)
    ensures Tokens(KeyText(src, dst, number), '_') == [Decimal(src), Decimal(dst), Digits(number)]
  {
    hide Tokens, Decimal, Digits;
    var rest := Decimal(dst) + "_" + Digits(number);
    DecimalHasNo(src, '_');
    DecimalHasNo(dst, '_');
    DecimalHasNo(number, '_');
    DigitsAreDecimal(number);
    SignFirst(src);
    SignFirst(dst);
    assert KeyText(src, dst, number) == Decimal(src) + ['_'] + rest;
    TokensSplit(Decimal(src), rest, '_');
    TokensSplit(Decimal(dst), Digits(number), '_');
    TokensOfField(Decimal(src), '_');
    TokensOfField(Decimal(dst), '_');
    TokensOfField(Digits(number), '_');
  }

  lemma DigitsAreDecimal(n: nat)
    ensures Decimal(n) == Digits(n) && Digits(n) != ""
  {
  }
}
