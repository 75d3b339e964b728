/** First-in first-out messages: step `k` of a sender appends `f(k)`, step `k` of a receiver takes `f(k)`. */
module Queues {

  ghost function Upto<T>(f: nat -> seq<T>, k: nat): seq<T> {
    if k == 0 then [] else Upto(f, k - 1) + f(k - 1)
  }

  ghost function From<T>(f: nat -> seq<T>, k: nat, n: nat): seq<T>
    requires k <= n
    decreases n - k
  {
    if k == n then [] else f(k) + From(f, k + 1, n)
  }

  /** What a phase has sent by its end is what the next phase receives from its start. */
  lemma {:induction false} SentIsReceived<T>(f: nat -> seq<T>, k: nat, n: nat)
    requires k <= n
    ensures Upto(f, n) == Upto(f, k) + From(f, k, n)
    decreases n - k
  {
    if k < n {
      SentIsReceived(f, k + 1, n);
    }
  }

  lemma Delivered<T>(f: nat -> seq<T>, n: nat)
    ensures Upto(f, n) == From(f, 0, n)
  {
    SentIsReceived(f, 0, n);
  }
}
