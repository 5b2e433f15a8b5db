/** Small shared vocabulary: an optional value and "occurs inside". */
module Common {

  datatype Option<+T> = None | Some(value: T)

  /** `sub` occurs as a contiguous piece of `s` (Python's `sub in s` on strings). */
  ghost predicate IsInfix<T>(sub: seq<T>, s: seq<T>)
  {
    exists i :: 0 <= i <= |s| && sub <= s[i..]
  }

  /** A middle piece of a concatenation occurs in it. */
  lemma InfixOfConcat<T>(a: seq<T>, sub: seq<T>, b: seq<T>)
    ensures IsInfix(sub, a + sub + b)
  {
    var s := a + sub + b;
    assert s[|a|..] == sub + b;
  }

  lemma ConcatAssoc<T>(a: seq<T>, b: seq<T>, c: seq<T>)
    ensures a + b + c == a + (b + c)
  {
  }

  /** A concatenation ends with the last element of a non-empty right part. */
  lemma LastOfConcat<T>(a: seq<T>, b: seq<T>)
    requires b != []
    ensures a + b != [] && (a + b)[|a + b| - 1] == b[|b| - 1]
  {
  }

  /** A prefix of a suffix is a middle slice. */
  lemma SliceOfSuffix<T>(s: seq<T>, a: nat, n: nat)
    requires a + n <= |s|
    ensures s[a..][..n] == s[a..a + n]
  {
  }

  /** What a sequence lacks, its suffixes lack. */
  lemma AbsentFromSuffix<T>(s: seq<T>, k: nat, x: T)
    requires k <= |s| && x !in s
    ensures x !in s[k..]
  {
  }

  /** Both pieces placed after and between fixed texts occur in the whole. */
  lemma InfixesAfterText<T>(a: seq<T>, x: seq<T>, b: seq<T>, y: seq<T>)
    ensures IsInfix(x, a + x + b + y) && IsInfix(y, a + x + b + y)
  {
    var s := a + x + b + y;
    assert s[|a|..] == x + (b + y);
    assert s[|a + x + b|..] == y;
  }

  /** Both pieces placed between and before fixed texts occur in the whole. */
  lemma InfixesBeforeText<T>(x: seq<T>, b: seq<T>, y: seq<T>, c: seq<T>)
    ensures IsInfix(x, x + b + y + c) && IsInfix(y, x + b + y + c)
  {
    var s := x + b + y + c;
    assert s[0..] == x + (b + y + c);
    assert s[|x + b|..] == y + c;
  }
}
