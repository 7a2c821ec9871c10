/** The tail of the internal metrics: the number of bytes of the buffer is written into the buffer itself, so it has to
    count its own digits. */
module ByteCount {

  function Pow10(k: nat): (p: nat)
    ensures p >= 1
  {
    if k == 0 then 1 else 10 * Pow10(k - 1)
  }

  function Digit(d: nat): char
    requires d < 10
  {
    ['0', '1', '2', '3', '4', '5', '6', '7', '8', '9'][d]
  }

  /** The decimal text of a number. */
  function Itoa(n: nat): (s: string)
    ensures s != []
  {
    if n < 10 then [Digit(n)] else Itoa(n / 10) + [Digit(n % 10)]
  }

  /** A number has k digits if and only if it is below 10^k and no less than 10^(k-1), where zero has one digit. */
  lemma {:induction false} DigitsExactlyWhen(n: nat, k: nat)
    requires k > 0
    ensures |Itoa(n)| == k <==> n < Pow10(k) && (k == 1 || Pow10(k - 1) <= n)
  {
    if n >= 10 && k > 1 {
      DigitsExactlyWhen(n / 10, k - 1);
      assert n == 10 * (n / 10) + n % 10;
      assert k == 2 || Pow10(k - 1) == 10 * Pow10(k - 2);
    } else if k > 1 {
      assert Pow10(k - 1) >= 10;
    }
  }

  lemma {:induction false} Pow10Grows(k: nat, d: nat)
    ensures Pow10(k + d) >= Pow10(k) + 9 * d
  {
    if d > 0 {
      Pow10Grows(k, d - 1);
    }
  }

  /** `n` counts `l` bytes and its own digits. */
  predicate Counts(n: nat, l: nat) {
    n == l + |Itoa(n)|
  }

  ghost predicate IsLeastCount(n: nat, l: nat) {
    Counts(n, l) && forall m: nat :: Counts(m, l) ==> n <= m
  }

  /** The count is not always unique: there is a second one if and only if the least is one short of a power of ten, and
      then that power is the only other one. */
  lemma OtherCountsExactlyWhen(l: nat, n: nat, m: nat)
    requires IsLeastCount(n, l)
    ensures Counts(m, l) <==> m == n || (m == n + 1 && n + 1 == Pow10(|Itoa(n)|))
  {
    var k := |Itoa(n)|;
    DigitsExactlyWhen(n, k);
    if m == n + 1 && n + 1 == Pow10(k) {
      assert Pow10(k + 1) == 10 * Pow10(k);
      DigitsExactlyWhen(m, k + 1);
    }
    if Counts(m, l) && m != n {
      var j := |Itoa(m)|;
      DigitsExactlyWhen(m, j);
      Pow10Grows(k, j - 1 - k);
    }
  }

  /** Both 9 and 10 count 8 other bytes. */
  lemma TwoCountsExample()
    ensures Counts(9, 8) && Counts(10, 8)
  {
    assert |Itoa(9)| == 1;
    DigitsExactlyWhen(10, 2);
  }

  /** Ends the buffer with its own length, a time stamp and a newline. The number written is the length of the buffer,
      and the least number that is right. */
  method AppendByteCount(buf: string, tsSuffix: string) returns (buf': string, n: nat)
    ensures buf' == buf + Itoa(n) + tsSuffix + ['\n']
    ensures n == |buf'| && IsLeastCount(n, |buf| + |tsSuffix| + 1)
  {
    var l := |buf| + |tsSuffix| + 1;
    var pow10 := 10;
    n := l + 1;
    ghost var k: nat := 1;
    assert Pow10(1) == 10 * Pow10(0);
    while pow10 <= n
      invariant k >= 1 && pow10 == Pow10(k) && n == l + k
      invariant k == 1 || Pow10(k - 1) <= n
      invariant forall j: nat | 1 <= j < k :: Pow10(j) <= l + j
      decreases n - pow10
    {
      n := n + 1;
      pow10 := pow10 * 10;
      k := k + 1;
    }
    DigitsExactlyWhen(n, k);
    forall m: nat | Counts(m, l) ensures n <= m {
      DigitsExactlyWhen(m, |Itoa(m)|);
    }
    buf' := buf + Itoa(n) + tsSuffix + ['\n'];
  }
}
