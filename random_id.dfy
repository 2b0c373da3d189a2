/** `getRandomId`: characters drawn from an alphabet are appended until the
    id is long enough. The draw `Math.floor(Math.random() * |from|)` is an
    oracle: `index(k)` is the index chosen for the k-th character. */
module RandomId {

  const DefaultAlphabet := "1234567890qwertyuioplkjhgfdsazxcvbnm"

  /** Indexing an empty alphabet yields `undefined`, which the template
      string spells out. */
  const Undefined := "undefined"

  /** A draw is a valid index whenever the alphabet is not empty. */
  ghost predicate ValidDraws(from: string, index: nat -> nat) {
    |from| > 0 ==> forall k :: index(k) < |from|
  }

  /** The first `n` characters drawn, in order. */
  function Drawn(from: string, index: nat -> nat, n: nat): (r: string)
    requires |from| > 0 && ValidDraws(from, index)
    ensures |r| == n
    ensures forall k :: 0 <= k < n ==> r[k] == from[index(k)]
  {
    if n == 0 then "" else Drawn(from, index, n - 1) + [from[index(n - 1)]]
  }

  /** `Undefined` repeated `n` times. */
  function Undefineds(n: nat): (r: string)
    ensures |r| == 9 * n
  {
    if n == 0 then "" else Undefineds(n - 1) + Undefined
  }

  method GetRandomId(idLength: int, from: string, index: nat -> nat) returns (id: string)
    requires ValidDraws(from, index)
    ensures |from| > 0 ==> id == Drawn(from, index, if idLength < 0 then 0 else idLength)
    ensures |from| == 0 ==> exists n: nat :: id == Undefineds(n) && 9 * n >= idLength && (n == 0 || 9 * (n - 1) < idLength)
  {
    id := "";
    var k: nat := 0;
    while |id| < idLength
      invariant |from| > 0 ==> id == Drawn(from, index, k) && (k == 0 || k <= idLength)
      invariant |from| == 0 ==> id == Undefineds(k) && (k == 0 || 9 * (k - 1) < idLength)
      decreases idLength - |id|
    {
      var randomChar := if |from| > 0 then [from[index(k)]] else Undefined;
      id := id + randomChar;
      k := k + 1;
    }
  }

  /** What `getRandomId(idLength)` gives with the default alphabet: as many
      characters as requested (none for a length of 0 or less), each from
      the alphabet. */
  predicate IsRandomId(id: string, idLength: int) {
    && |id| == (if idLength < 0 then 0 else idLength)
    && forall i :: 0 <= i < |id| ==> id[i] in DefaultAlphabet
  }

  /** Every id drawn from the default alphabet has that shape. */
  lemma DrawnIsRandomId(index: nat -> nat, idLength: int)
    requires ValidDraws(DefaultAlphabet, index)
    ensures IsRandomId(Drawn(DefaultAlphabet, index, if idLength < 0 then 0 else idLength), idLength)
  {
    IdShape(DefaultAlphabet, index, if idLength < 0 then 0 else idLength);
  }

  /** The id has the requested length, drawn from the alphabet; length 0 or
      less gives the empty id. */
  lemma IdShape(from: string, index: nat -> nat, idLength: nat)
    requires |from| > 0 && ValidDraws(from, index)
    ensures |Drawn(from, index, idLength)| == idLength
    ensures forall k :: 0 <= k < idLength ==> Drawn(from, index, idLength)[k] in from
  {
    forall k | 0 <= k < idLength
      ensures Drawn(from, index, idLength)[k] in from
    {
      assert Drawn(from, index, idLength)[k] == from[index(k)];
    }
  }
}
