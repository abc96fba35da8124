/** Numbered records in a map, each of which carries an amount and the running balance after it. */
module Chains {

  /** The map has the same under key k before and after. */
  ghost predicate SameAt<K, V>(m: map<K, V>, m': map<K, V>, k: K) {
    (k in m' <==> k in m) && (k in m ==> m'[k] == m[k])
  }

  /**
   Exactly the records 1..last exist. Record 1 ends with the opening balance, every further record
   ends with the balance before it changed by its amount, and the last ends with `bal`.
   */
  ghost predicate Chain<K, V>(m: map<K, V>, key: int -> K, amount: V -> int, end: V -> int,
                              opening: int, last: int, bal: int) {
    && 1 <= last
    && (forall k :: key(k) in m <==> 1 <= k <= last)
    && end(m[key(1)]) == opening
    && (forall k :: 2 <= k <= last ==> end(m[key(k)]) == end(m[key(k - 1)]) + amount(m[key(k)]))
    && end(m[key(last)]) == bal
  }

  /** A first record alone. */
  lemma ChainOpens<K, V>(m: map<K, V>, key: int -> K, amount: V -> int, end: V -> int, opening: int)
    requires forall k :: key(k) in m <==> k == 1
    requires end(m[key(1)]) == opening
    ensures Chain(m, key, amount, end, opening, 1, opening)
  {
  }

  /** A further record that continues the chain. */
  lemma ChainGrows<K, V>(m: map<K, V>, m': map<K, V>, key: int -> K, amount: V -> int, end: V -> int,
                         opening: int, last: int, bal: int, record: V)
    requires Chain(m, key, amount, end, opening, last, bal)
    requires key(last + 1) in m' && m'[key(last + 1)] == record
    requires forall k :: k != last + 1 ==> SameAt(m, m', key(k))
    requires end(record) == bal + amount(record)
    ensures Chain(m', key, amount, end, opening, last + 1, end(record))
  {
    forall k
      ensures key(k) in m' <==> 1 <= k <= last + 1
      ensures 1 <= k <= last ==> m'[key(k)] == m[key(k)]
    {
      assert k != last + 1 ==> SameAt(m, m', key(k));
    }
  }

  lemma ChainSame<K, V>(m: map<K, V>, m': map<K, V>, key: int -> K, amount: V -> int, end: V -> int,
                        opening: int, last: int, bal: int)
    requires Chain(m, key, amount, end, opening, last, bal)
    requires forall k :: SameAt(m, m', key(k))
    ensures Chain(m', key, amount, end, opening, last, bal)
  {
    forall k
      ensures key(k) in m' <==> 1 <= k <= last
      ensures 1 <= k <= last ==> m'[key(k)] == m[key(k)]
    {
      assert SameAt(m, m', key(k));
    }
  }
}
