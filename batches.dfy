/** The shape both feeds share: lines arrive in batches, and stored rows leave the queue in chunks. */
module Batches {

  /** `dataRows.splice(0, 223)`: a prime chunk size, for less regular progress messages. */
  const BatchSize: nat := 223

  /** The lines of all batches, one after the other. */
  function Flatten(batches: seq<seq<string>>): seq<string> {
    if batches == [] then [] else batches[0] + Flatten(batches[1..])
  }

  lemma {:induction false} FlattenSnoc(batches: seq<seq<string>>, b: seq<string>)
    ensures Flatten(batches + [b]) == Flatten(batches) + b
  {
    if batches == [] {
      assert ([] + [b])[1..] == [];
      assert b + [] == b;
    } else {
      assert (batches + [b])[1..] == batches[1..] + [b];
      FlattenSnoc(batches[1..], b);
    }
  }

  /** Splicing `n` items off the queue `s[c..]` leaves `s[c + n..]`. */
  lemma Splice<T>(s: seq<T>, c: nat, n: nat)
    requires c + n <= |s|
    ensures s[c..][..n] == s[c..c + n] && s[c..][n..] == s[c + n..]
  {
  }

  /** The `j`-th item of the chunk `s[c..c + n]` is the item `c + j` of the queue. */
  lemma ChunkAt<T>(s: seq<T>, c: nat, n: nat, j: nat)
    requires c + n <= |s| && j < n
    ensures s[c..c + n][j] == s[c + j]
  {
  }

  /** Appending one more item to the second part of a concatenation. */
  lemma SnocAppend<T>(a: seq<T>, b: seq<T>, x: T)
    ensures (a + b) + [x] == a + (b + [x])
  {
  }

  /** Regrouping a concatenation of three parts. */
  lemma AppendAssoc<T>(a: seq<T>, b: seq<T>, c: seq<T>)
    ensures (a + b) + c == a + (b + c)
  {
  }
}
