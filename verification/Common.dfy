/** Vocabulary shared by the models. */
module Common {
  datatype Option<T> = None | Some(value: T)

  /** A packet: its identity and its length in bytes. */
  datatype Pkt = Pkt(id: nat, len: nat)

  /** A buffer as the driver hands it out and gets it back. */
  datatype Buf = Buf(cookie: nat, paddr: nat, len: nat)

  /** What the backend answers to a packet: sent, try again when there is room, or an error. */
  datatype Answer = Accepted | WouldBlock | SendFailed

  /** Why a backend's loop stopped: no work after asking for kicks, enough for once, or a refused packet. */
  datatype Stop = Empty | Budget | Refused(answer: Answer)

  /** The answer to the `k`-th packet; past the list, the backend has no room. */
  function AnswerTo(answers: seq<Answer>, k: nat): Answer { if k < |answers| then answers[k] else WouldBlock }

  /** What a driver may do with a transmit queue: send a packet, or poll for completions. */
  datatype GuestAct<P> = Transmit(pkt: P, napi: bool) | Poll

  /** With fewer free slots than this a driver stops the queue. */
  const FREE_LOW := 19

  /** What a driver waits for before it is interrupted: half of what is outstanding, and one. */
  function HalfPending(total: nat, free: int): int { 1 + (total - free) / 2 }

  /** Where the guest is with a queue shared with the host. */
  datatype GuestPc =
    | GuestIdle
    | Checking       // something was published, the host's request for kicks has not been read
    | Armed          // an interrupt was asked for, completions have not been looked at again

  /** A scheduler queue of this length drops what is added to it. */
  const QUEUE_LIMIT: nat := 20000

  /** One more than the largest 32-bit word. */
  const WORD: nat := 0x1_0000_0000

  /** Most packets a backend takes from a transmit queue in one go. */
  const TX_BUDGET: nat := 128

  /** Just `fact`, written so that the verifier treats a long conjunction as one fact. */
  ghost predicate Unit(fact: bool) { fact <==> true }

  /** A fact stated as `forall k: nat :: Unseal(k) ==> fact` is carried along as it is; the verifier
      takes it apart only where `Unseal(0)` is asserted. */
  ghost predicate Unseal(k: nat) { k >= 0 }

  ghost predicate NoRepeats(s: seq<nat>) { forall a, b :: 0 <= a < b < |s| ==> s[a] != s[b] }

  // ----- division with remainder ---------------------------------------------------

  lemma QuotientIs(p: nat, n: nat, q: nat, r: nat)
    requires 0 < n && r < n && p == q * n + r
    ensures p / n == q && p % n == r
  {
    var d := p / n - q;
    assert n * d == r - p % n;
    MultipleBound(n, d);
  }

  lemma MultipleBound(n: nat, d: int)
    ensures d >= 1 ==> n * d >= n
    ensures d <= -1 ==> n * d <= 0 - n
  {}

  lemma Monotone(a: int, b: int, c: nat)
    requires a <= b
    ensures a * c <= b * c
  {}

  // ----- queues -----------------------------------------------------------------------

  /** Conservation, one step further: a queue `q` takes in `a` and gives out `r`. */
  lemma Regroup(had: seq<Pkt>, acc: seq<Pkt>, sent: seq<Pkt>, q: seq<Pkt>, a: seq<Pkt>, r: seq<Pkt>, q': seq<Pkt>)
    requires had + acc == sent + q && q + a == r + q'
    ensures had + (acc + a) == (sent + r) + q'
  {
    assert had + (acc + a) == (had + acc) + a;
    assert (sent + q) + a == sent + (q + a);
    assert sent + (r + q') == (sent + r) + q';
  }
}
