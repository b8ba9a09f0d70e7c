/**
 Shard labels: the zero-padded decimal index that names the files of a shard, and the
 readers that recover the index from such a name.
 */
module ShardLabels {
  import opened NodeIds

  function Digit(d: nat): (r: char)
    requires d < 10
    ensures '0' <= r <= '9'
  {
    '0' + d as char
  }

  function DigitValue(d: char): (r: nat)
    requires '0' <= d <= '9'
  {
    (d - '0') as nat
  }

  predicate Digits(s: string) {
    forall i :: 0 <= i < |s| ==> '0' <= s[i] <= '9'
  }

  function Decimal(n: nat): (r: string)
    ensures r != [] && Digits(r)
  {
    if n < 10 then [Digit(n)] else Decimal(n / 10) + [Digit(n % 10)]
  }

  function ParseDecimal(s: string): nat
    requires Digits(s)
  {
    if s == [] then 0 else 10 * ParseDecimal(s[..|s| - 1]) + DigitValue(s[|s| - 1])
  }

  function Zeros(k: nat): (r: string)
    ensures |r| == k && forall i :: 0 <= i < k ==> r[i] == '0'
  {
    seq(k, i => '0')
  }

  /** The width of the labels of a plan with this many shards. */
  function ShardWidth(count: nat): (w: nat)
    requires count >= 1
    ensures w >= 2
  {
    if |Decimal(count - 1)| > 2 then |Decimal(count - 1)| else 2
  }

  /** n in decimal, padded with zeros to at least w digits. */
  function Padded(n: nat, w: nat): (r: string)
    ensures Digits(r) && |r| >= w
  {
    Pad(Decimal(n), w)
  }

  function Pad(d: string, w: nat): (r: string)
    requires Digits(d)
    ensures Digits(r) && |r| >= w
  {
    if |d| >= w then d else Zeros(w - |d|) + d
  }

  function ShardLabel(index: nat, count: nat): (r: string)
    requires count >= 1
    ensures Digits(r) && |r| >= 2
  {
    Padded(index, ShardWidth(count))
  }

  lemma {:induction false} ParseWrittenDecimal(n: nat)
    ensures ParseDecimal(Decimal(n)) == n
  {
    if n >= 10 {
      ParseWrittenDecimal(n / 10);
      assert Decimal(n)[..|Decimal(n)| - 1] == Decimal(n / 10);
    }
  }

  lemma {:induction false} ParseLeadingZeros(k: nat, s: string)
    requires Digits(s)
    ensures ParseDecimal(Zeros(k) + s) == ParseDecimal(s)
    decreases k + |s|
  {
    var t := Zeros(k) + s;
    if s != [] {
      assert t[..|t| - 1] == Zeros(k) + s[..|s| - 1];
      ParseLeadingZeros(k, s[..|s| - 1]);
    } else if k > 0 {
      assert t[..|t| - 1] == Zeros(k - 1) + [];
      ParseLeadingZeros(k - 1, []);
    }
  }

  lemma ParsePad(d: string, w: nat)
    requires Digits(d)
    ensures ParseDecimal(Pad(d, w)) == ParseDecimal(d)
  {
    if |d| < w {
      ParseLeadingZeros(w - |d|, d);
    }
  }

  lemma ParsePadded(n: nat, w: nat)
    ensures ParseDecimal(Padded(n, w)) == n
  {
    ParseWrittenDecimal(n);
    ParsePad(Decimal(n), w);
  }

  /** Reading a label gives back the index it was made from. */
  lemma ParseShardLabel(index: nat, count: nat)
    requires count >= 1
    ensures ParseDecimal(ShardLabel(index, count)) == index
  {
    ParsePadded(index, ShardWidth(count));
  }

  /** The number between prefix and suffix, when it has at least two digits. */
  function MatchName(prefix: string, suffix: string, name: string): Option<nat> {
    if |name| < |prefix| + |suffix| + 2 then None
    else
      var k := |name| - |suffix|;
      if name[..|prefix|] == prefix && name[k..] == suffix && Digits(name[|prefix|..k])
      then Some(ParseDecimal(name[|prefix|..k]))
      else None
  }

  lemma MatchLabelledName(prefix: string, suffix: string, index: nat, count: nat)
    requires count >= 1
    ensures MatchName(prefix, suffix, prefix + ShardLabel(index, count) + suffix) == Some(index)
  {
    var mark := ShardLabel(index, count);
    var name := prefix + mark + suffix;
    ParseShardLabel(index, count);
    assert name[..|prefix|] == prefix;
    assert name[|name| - |suffix|..] == suffix;
    assert name[|prefix|..|name| - |suffix|] == mark;
  }

  lemma LabelledNamesDiffer(prefix: string, suffix: string, i: nat, j: nat, count: nat)
    requires count >= 1 && i != j
    ensures prefix + ShardLabel(i, count) + suffix != prefix + ShardLabel(j, count) + suffix
  {
    MatchLabelledName(prefix, suffix, i, count);
    MatchLabelledName(prefix, suffix, j, count);
  }

  lemma NumberedNamesDiffer(prefix: string, i: nat, j: nat)
    requires i != j
    ensures prefix + Decimal(i) != prefix + Decimal(j)
  {
    ParseWrittenDecimal(i);
    ParseWrittenDecimal(j);
    assert (prefix + Decimal(i))[|prefix|..] == Decimal(i);
    assert (prefix + Decimal(j))[|prefix|..] == Decimal(j);
  }

  // ----- what a label looks like

  function Ten(k: nat): (r: nat)
    ensures r >= 1
  {
    if k == 0 then 1 else 10 * Ten(k - 1)
  }

  lemma {:induction false} DecimalLength(n: nat)
    ensures var w := |Decimal(n)|; n < Ten(w) && (w > 1 ==> Ten(w - 1) <= n)
  {
    if n >= 10 {
      DecimalLength(n / 10);
    } else {
      assert Ten(1) == 10 * Ten(0);
    }
  }

  lemma QuotientByTen(n: nat, j: nat)
    ensures n / Ten(j + 1) == n / 10 / Ten(j)
  {
    var t := Ten(j);
    var q, r := n / 10 / t, n / 10 % t;
    assert n / 10 == q * t + r;
    assert n == q * (10 * t) + (10 * r + n % 10);
    assert 0 <= 10 * r + n % 10 < 10 * t;
    QuotientIs(n, 10 * t, q, 10 * r + n % 10);
  }

  lemma Multiple(k: int, d: nat)
    requires k >= 1
    ensures k * d >= d
  {
    assert k * d == (k - 1) * d + d;
  }

  lemma Difference(k: int, q: int, d: int)
    ensures (k - q) * d == k * d - q * d
  {
  }

  lemma QuotientIs(n: nat, d: nat, q: nat, r: nat)
    requires d >= 1 && n == q * d + r && r < d
    ensures n / d == q
  {
    var k := n / d;
    Difference(k, q, d);
    Difference(q, k, d);
    if k > q {
      Multiple(k - q, d);
    } else if k < q {
      Multiple(q - k, d);
    }
  }

  /** The digit of n that counts the j-th power of ten. */
  function DigitAt(n: nat, j: nat): char {
    '0' + (n / Ten(j) % 10) as char
  }

  lemma {:induction false} DecimalDigits(n: nat, j: nat)
    requires j < |Decimal(n)|
    ensures Decimal(n)[|Decimal(n)| - 1 - j] == DigitAt(n, j)
  {
    if j == 0 {
      DecimalLast(n);
    } else {
      DecimalFront(n, j);
      DecimalDigits(n / 10, j - 1);
      QuotientByTen(n, j - 1);
    }
  }

  lemma DecimalLast(n: nat)
    ensures Decimal(n)[|Decimal(n)| - 1] == DigitAt(n, 0)
  {
    assert Ten(0) == 1;
  }

  lemma DecimalFront(n: nat, j: nat)
    requires 0 < j < |Decimal(n)|
    ensures n >= 10 && |Decimal(n)| == |Decimal(n / 10)| + 1
    ensures Decimal(n)[|Decimal(n)| - 1 - j] == Decimal(n / 10)[|Decimal(n / 10)| - j]
  {
    DecimalHasTwo(n);
    FromTheEnd(Decimal(n / 10), Digit(n % 10), j);
  }

  lemma DecimalHasTwo(n: nat)
    requires |Decimal(n)| > 1
    ensures n >= 10 && Decimal(n) == Decimal(n / 10) + [Digit(n % 10)]
  {
  }

  lemma FromTheEnd(s: string, c: char, j: nat)
    requires 0 < j <= |s|
    ensures (s + [c])[|s| - j] == s[|s| - j]
  {
  }

  lemma {:induction false} TenGrows(j: nat, k: nat)
    requires j <= k
    ensures Ten(j) <= Ten(k)
  {
    if j < k {
      TenGrows(j, k - 1);
    }
  }

  /** l is index in decimal with w digits, zeros in front. */
  ghost predicate WrittenIn(l: string, index: nat, w: nat) {
    |l| == w && forall j: nat :: j < w ==> l[w - 1 - j] == DigitAt(index, j)
  }

  lemma SmallDigit(n: nat, j: nat)
    requires n < Ten(j)
    ensures DigitAt(n, j) == '0'
  {
    QuotientIs(n, Ten(j), 0, n);
  }

  lemma PadDigit(d: string, w: nat, j: nat)
    requires Digits(d) && |d| <= w && j < w
    ensures |Pad(d, w)| == w && Pad(d, w)[w - 1 - j] == if j < |d| then d[|d| - 1 - j] else '0'
  {
  }

  lemma PaddedIsWritten(n: nat, w: nat)
    requires n < Ten(w) && w >= 1
    ensures WrittenIn(Padded(n, w), n, w)
  {
    var d := Decimal(n);
    DecimalLength(n);
    if |d| > w {
      TenGrows(w, |d| - 1);
    }
    PadDigit(d, w, 0);
    forall j: nat | j < w ensures Padded(n, w)[w - 1 - j] == DigitAt(n, j) {
      PadDigit(d, w, j);
      if j < |d| {
        DecimalDigits(n, j);
      } else {
        TenGrows(|d|, j);
        SmallDigit(n, j);
      }
    }
  }

  /** w is the width of the labels of this many shards: at least two digits, and no more than the
      greatest index needs. */
  ghost predicate LabelWidth(w: nat, count: nat)
    requires count >= 1
  {
    if count <= 100 then w == 2 else w >= 1 && Ten(w - 1) <= count - 1 < Ten(w)
  }

  /** l labels shard index of this many. */
  ghost predicate IsLabel(l: string, index: nat, count: nat)
    requires count >= 1
  {
    LabelWidth(|l|, count) && WrittenIn(l, index, |l|)
  }

  lemma WidthIs(count: nat)
    requires count >= 1
    ensures LabelWidth(ShardWidth(count), count) && count - 1 < Ten(ShardWidth(count))
  {
    var w := |Decimal(count - 1)|;
    DecimalLength(count - 1);
    assert Ten(2) == 10 * (10 * Ten(0));
    if w > 2 {
      TenGrows(2, w - 1);
    } else {
      TenGrows(w, 2);
    }
  }

  /** The label of a shard is its index in decimal, as wide as the greatest index but at least two digits. */
  lemma LabelIs(index: nat, count: nat)
    requires index < count
    ensures IsLabel(ShardLabel(index, count), index, count)
  {
    WidthIs(count);
    PaddedIsWritten(index, ShardWidth(count));
  }

  lemma OneWidth(v: nat, w: nat, count: nat)
    requires count >= 1 && LabelWidth(v, count) && LabelWidth(w, count)
    ensures v == w
  {
    if count > 100 {
      if v < w {
        TenGrows(v, w - 1);
      } else if w < v {
        TenGrows(w, v - 1);
      }
    }
  }

  /** Nothing else labels it. */
  lemma LabelIsUnique(l: string, index: nat, count: nat)
    requires index < count
    ensures IsLabel(l, index, count) <==> l == ShardLabel(index, count)
  {
    LabelIs(index, count);
    if IsLabel(l, index, count) {
      var m := ShardLabel(index, count);
      OneWidth(|l|, |m|, count);
      WrittenOnce(l, m, index);
    }
  }

  /** d is n in decimal without a leading zero. */
  ghost predicate IsDecimal(d: string, n: nat) {
    |d| >= 1 && n < Ten(|d|) && (|d| > 1 ==> Ten(|d| - 1) <= n) && WrittenIn(d, n, |d|)
  }

  lemma DecimalIs(n: nat)
    ensures IsDecimal(Decimal(n), n)
  {
    DecimalLength(n);
    forall j: nat | j < |Decimal(n)| ensures Decimal(n)[|Decimal(n)| - 1 - j] == DigitAt(n, j) {
      DecimalDigits(n, j);
    }
  }

  lemma WrittenOnce(l: string, m: string, n: nat)
    requires |l| == |m| && WrittenIn(l, n, |l|) && WrittenIn(m, n, |m|)
    ensures l == m
  {
    forall i: nat | i < |l| ensures l[i] == m[i] {
      assert l[|l| - 1 - (|l| - 1 - i)] == DigitAt(n, |l| - 1 - i);
      assert m[|l| - 1 - (|l| - 1 - i)] == DigitAt(n, |l| - 1 - i);
    }
  }

  lemma DecimalIsUnique(d: string, n: nat)
    ensures IsDecimal(d, n) <==> d == Decimal(n)
  {
    DecimalIs(n);
    if IsDecimal(d, n) {
      var m := Decimal(n);
      if |d| < |m| {
        TenGrows(|d|, |m| - 1);
      } else if |m| < |d| {
        TenGrows(|m|, |d| - 1);
      }
      WrittenOnce(d, m, n);
    }
  }

  lemma ThreeOfEight()
    ensures ShardLabel(3, 8) == "03"
  {
    assert Ten(0) == 1 && Ten(1) == 10;
    LabelIsUnique("03", 3, 8);
  }

  /** A name is read as a number exactly when it is the prefix, at least two digits and the suffix. */
  lemma MatchNameMeans(prefix: string, suffix: string, name: string, i: nat)
    ensures MatchName(prefix, suffix, name) == Some(i) <==>
      exists d :: Digits(d) && |d| >= 2 && ParseDecimal(d) == i && name == prefix + d + suffix
  {
    if MatchName(prefix, suffix, name) == Some(i) {
      var d := name[|prefix|..|name| - |suffix|];
      assert name == prefix + d + suffix;
    }
    if d :| Digits(d) && |d| >= 2 && ParseDecimal(d) == i && name == prefix + d + suffix {
      assert name[..|prefix|] == prefix && name[|name| - |suffix|..] == suffix;
      assert name[|prefix|..|name| - |suffix|] == d;
    }
  }
}
