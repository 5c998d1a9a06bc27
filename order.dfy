/** The comparison vocabulary shared by the archive's comparators: Java's
    three-way `compare` results and lexicographic comparison of arrays of
    equal length, decided at their first differing element. */
module Order {

  /** Integer.compare, Long.compare and Integer.signum: -1, 0 or 1 by the sign of `x`. */
  function Sign(x: int): (r: int)
    ensures -1 <= r <= 1
    ensures r < 0 <==> x < 0
    ensures r > 0 <==> x > 0
  {
    if x < 0 then -1 else if x > 0 then 1 else 0
  }

  /** The first index at which two sequences of the same length differ,
      or their length when they are equal. */
  function FirstDiff(a: seq<int>, b: seq<int>): (r: nat)
    requires |a| == |b|
    ensures r <= |a|
    ensures forall j :: 0 <= j < r ==> a[j] == b[j]
    ensures r < |a| ==> a[r] != b[r]
    decreases |a|
  {
    if a == [] || a[0] != b[0] then 0 else 1 + FirstDiff(a[1..], b[1..])
  }

  /** FirstDiff is determined by its two properties. */
  lemma {:induction false} FirstDiffAt(a: seq<int>, b: seq<int>, k: nat)
    requires |a| == |b| && k <= |a|
    requires forall j :: 0 <= j < k ==> a[j] == b[j]
    requires k < |a| ==> a[k] != b[k]
    ensures FirstDiff(a, b) == k
  {
  }

  /** Lexicographic three-way comparison of two sequences of the same length. */
  function Lex(a: seq<int>, b: seq<int>): (r: int)
    requires |a| == |b|
    ensures -1 <= r <= 1
    ensures r == 0 <==> a == b
  {
    var i := FirstDiff(a, b);
    if i == |a| then
      assert a == b;
      0
    else Sign(a[i] - b[i])
  }

  lemma {:induction false} LexAntisymmetric(a: seq<int>, b: seq<int>)
    requires |a| == |b|
    ensures Lex(a, b) == -Lex(b, a)
  {
    FirstDiffAt(b, a, FirstDiff(a, b));
  }

  lemma {:induction false} LexTransitive(a: seq<int>, b: seq<int>, c: seq<int>)
    requires |a| == |b| == |c|
    requires Lex(a, b) <= 0 && Lex(b, c) <= 0
    ensures Lex(a, c) <= 0
  {
    var i, j := FirstDiff(a, b), FirstDiff(b, c);
    var k := if i < j then i else j;
    forall m | 0 <= m < k
      ensures a[m] == c[m]
    {
      assert a[m] == b[m] == c[m];
    }
    if k < |a| {
      assert a[k] <= b[k] <= c[k];
      assert a[k] < c[k] by {
        if i < j { assert b[k] == c[k]; } else if j < i { assert a[k] == b[k]; }
      }
    }
    FirstDiffAt(a, c, k);
  }

  /** The strict half of transitivity: a chain with a strict step is strict. */
  lemma {:induction false} LexStrict(a: seq<int>, b: seq<int>, c: seq<int>)
    requires |a| == |b| == |c|
    requires Lex(a, b) <= 0 && Lex(b, c) <= 0
    requires Lex(a, b) < 0 || Lex(b, c) < 0
    ensures Lex(a, c) < 0
  {
    LexTransitive(a, b, c);
    if Lex(a, c) == 0 {
      assert a == c;
      LexAntisymmetric(a, b);
    }
  }
}
