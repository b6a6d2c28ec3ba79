/**
 The collected-token ledger `counts`: a map from token name to a tally.

 The page initialises only the DAK, CHOG and MON keys, while a collection
 draws its name from all four tokens. Adding 1 to a key the object lacks
 yields `undefined + 1`, which is NaN in JavaScript, and NaN stays NaN under
 every later `+= 1`. A tally is therefore either a number or NaN.
 */
module Ledger {

  datatype Tally = Num(n: int) | NaN

  type Ledger = map<string, Tally>

  /** The labels of the token table, in table order. */
  const TokenLabels: seq<string> := ["YAKI", "CHOG", "DAK", "MON"]

  /** The keys `counts` starts with. */
  const InitialLabels: set<string> := {"DAK", "CHOG", "MON"}

  const Initial: Ledger := map["DAK" := Num(0), "CHOG" := Num(0), "MON" := Num(0)]

  /** `counts[name] += 1`. */
  function Credit(l: Ledger, name: string): (r: Ledger)
    ensures r.Keys == l.Keys + {name}
    ensures forall k :: k in l && k != name ==> r[k] == l[k]
    ensures name in l && l[name].Num? ==> r[name] == Num(l[name].n + 1)
    ensures name !in l || l[name].NaN? ==> r[name] == NaN
  {
    if name in l && l[name].Num? then l[name := Num(l[name].n + 1)]
    else l[name := NaN]
  }

  /** The ledger after the claim request settles: every existing key is
      zeroed when the server answered `ok`, and nothing changes otherwise
      (a reply without `ok`, or a request or parse that threw). */
  function Claim(l: Ledger, ok: bool): (r: Ledger)
    ensures r.Keys == l.Keys
    ensures ok ==> forall k :: k in r ==> r[k] == Num(0)
    ensures !ok ==> r == l
  {
    if ok then map k | k in l :: Num(0) else l
  }

  /** A ledger on which every initial key holds a number. */
  predicate Numeric(l: Ledger) {
    forall k :: k in InitialLabels ==> k in l && l[k].Num?
  }

  /** The sum of the initial keys' tallies. */
  function Total(l: Ledger): int
    requires Numeric(l)
  {
    l["DAK"].n + l["CHOG"].n + l["MON"].n
  }

  /** Applying the credits of a sequence of drawn labels, first draw first. */
  function CreditAll(l: Ledger, labels: seq<string>): Ledger
    decreases |labels|
  {
    if |labels| == 0 then l else CreditAll(Credit(l, labels[0]), labels[1..])
  }

  /** How many times `k` occurs in `labels`. */
  function Occurrences(labels: seq<string>, k: string): nat
    decreases |labels|
  {
    if |labels| == 0 then 0
    else (if labels[0] == k then 1 else 0) + Occurrences(labels[1..], k)
  }

  /** Crediting an initial key raises it, and the total, by exactly one and
      leaves every other key as it was. */
  lemma CreditInitialLabel(l: Ledger, name: string)
    requires Numeric(l) && name in InitialLabels
    ensures Numeric(Credit(l, name))
    ensures Credit(l, name)[name].n == l[name].n + 1
    ensures Total(Credit(l, name)) == Total(l) + 1
    ensures Credit(l, name).Keys == l.Keys
  {
  }

  /** Drawing YAKI on the initial ledger adds a YAKI key holding NaN and
      changes none of the initial keys. */
  lemma CreditYakiIsNaN()
    ensures Credit(Initial, "YAKI") == Initial["YAKI" := NaN]
    ensures "YAKI" !in Initial
  {
  }

  /** A numeric tally counts exactly the draws of its name: starting from
      `Num(n)`, after crediting `labels` the key holds `n` plus the number of
      times it was drawn. */
  lemma {:induction false} CreditAllCounts(l: Ledger, labels: seq<string>, k: string)
    requires k in l && l[k].Num?
    ensures k in CreditAll(l, labels)
    ensures CreditAll(l, labels)[k] == Num(l[k].n + Occurrences(labels, k))
    decreases |labels|
  {
    if |labels| > 0 {
      CreditAllCounts(Credit(l, labels[0]), labels[1..], k);
    }
  }

  /** A NaN tally is absorbing: once a key holds NaN, no credit sequence
      brings a number back. */
  lemma {:induction false} CreditAllKeepsNaN(l: Ledger, labels: seq<string>, k: string)
    requires k in l && l[k].NaN?
    ensures k in CreditAll(l, labels) && CreditAll(l, labels)[k] == NaN
    decreases |labels|
  {
    if |labels| > 0 {
      CreditAllKeepsNaN(Credit(l, labels[0]), labels[1..], k);
    }
  }

  /** Credits never remove a key, and add exactly the drawn labels. */
  lemma {:induction false} CreditAllKeys(l: Ledger, labels: seq<string>)
    ensures CreditAll(l, labels).Keys == l.Keys + set i | 0 <= i < |labels| :: labels[i]
    decreases |labels|
  {
    if |labels| > 0 {
      CreditAllKeys(Credit(l, labels[0]), labels[1..]);
      var rest := set i | 0 <= i < |labels[1..]| :: labels[1..][i];
      var all := set i | 0 <= i < |labels| :: labels[i];
      assert all == {labels[0]} + rest by {
        forall x | x in all ensures x in {labels[0]} + rest {
          var i :| 0 <= i < |labels| && labels[i] == x;
          if i > 0 { assert labels[1..][i - 1] == x; }
        }
        forall x | x in rest ensures x in all {
          var i :| 0 <= i < |labels[1..]| && labels[1..][i] == x;
          assert labels[i + 1] == x;
        }
      }
    }
  }

  /** After a successful claim, a key of the ledger counts exactly the
      collections of its name made since. */
  lemma ClaimThenCollect(l: Ledger, labels: seq<string>, k: string)
    requires k in l
    ensures k in CreditAll(Claim(l, true), labels)
    ensures CreditAll(Claim(l, true), labels)[k] == Num(Occurrences(labels, k))
  {
    CreditAllCounts(Claim(l, true), labels, k);
  }

  /** A successful claim is idempotent and a failed one is the identity. */
  lemma ClaimIdempotent(l: Ledger)
    ensures Claim(Claim(l, true), true) == Claim(l, true)
    ensures Claim(Claim(l, true), false) == Claim(l, true)
  {
  }
}
