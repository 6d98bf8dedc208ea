/** Generic facts about sequences that the other modules lean on. */
module Seqs {

  /** Splitting a non-empty sequence into its first element and the rest. */
  lemma ConsSplit<T>(s: seq<T>)
    requires s != []
    ensures s == [s[0]] + s[1..]
  {
  }

  /** A non-empty sequence whose tail is split in two is its head, then the two parts. */
  lemma HeadThenSplit<T>(s: seq<T>, x: seq<T>, y: seq<T>)
    requires s != [] && s[1..] == x + y
    ensures s == ([s[0]] + x) + y
  {
    ConsSplit(s);
    AppendAssoc([s[0]], x, y);
  }

  /** Where the first element and the rest of `x + y` come from. */
  lemma AppendSplit<T>(x: seq<T>, y: seq<T>)
    ensures x == [] ==> x + y == y
    ensures x != [] ==> (x + y)[0] == x[0] && (x + y)[1..] == x[1..] + y
  {
  }

  /** Where the elements of `[x] + s` come from. */
  lemma PrependIndex<T>(x: T, s: seq<T>)
    ensures |[x] + s| == 1 + |s| && ([x] + s)[0] == x
    ensures forall k :: 0 <= k < |s| ==> ([x] + s)[k + 1] == s[k]
  {
  }

  /** Where the first element and the rest of `s + [x]` come from. */
  lemma SnocSplit<T>(s: seq<T>, x: T)
    ensures s == [] ==> s + [x] == [x] && [x][1..] == []
    ensures s != [] ==> (s + [x])[0] == s[0] && (s + [x])[1..] == s[1..] + [x]
  {
  }

  lemma AppendAssoc<T>(x: seq<T>, y: seq<T>, z: seq<T>)
    ensures x + y + z == x + (y + z)
  {
  }

  /** The last element of a non-empty sequence. */
  function Final<T>(s: seq<T>): T
    requires s != []
    decreases |s|
  {
    if |s| == 1 then s[0] else Final(s[1..])
  }

  lemma {:induction false} FinalIsLast<T>(s: seq<T>)
    requires s != []
    ensures Final(s) == s[|s| - 1]
    decreases |s|
  {
    if |s| > 1 {
      FinalIsLast(s[1..]);
    }
  }

  lemma {:induction false} FinalOfAppend<T>(x: seq<T>, y: seq<T>)
    requires y != []
    ensures Final(x + y) == Final(y)
    decreases |x|
  {
    AppendSplit(x, y);
    if x != [] {
      FinalOfAppend(x[1..], y);
    }
  }
}
