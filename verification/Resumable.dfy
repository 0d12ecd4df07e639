/**
 What it means for a decoder that may stop in the middle of its input to be independent of
 how that input was cut up. A decoder maps a saved state and the unread bytes to an outcome;
 the one law it must satisfy is that going on later, with more bytes, is the same as having
 had those bytes from the start. The law carries over to any list of fragments.
 */
module Resumable {
  import opened Bytes
  import opened DrawCalls

  /** Wait: the call returned false and wants more bytes. Fail: it threw. */
  datatype Status = Done | Wait | Fail

  datatype Outcome<S> = Outcome(status: Status, state: S, rest: seq<Byte>, calls: seq<Call>) {
    /** This outcome, reached after `earlier` calls had been made. */
    function After(earlier: seq<Call>): Outcome<S> {
      this.(calls := earlier + calls)
    }
  }

  type Decoder<!S> = (S, seq<Byte>) -> Outcome<S>

  /** What a decoder that produced `r` produces once `b` has arrived as well. */
  function Continue<S>(dec: Decoder<S>, r: Outcome<S>, b: seq<Byte>): Outcome<S> {
    if r.status == Wait then dec(r.state, r.rest + b).After(r.calls) else r.(rest := r.rest + b)
  }

  ghost predicate ResumesAt<S>(dec: Decoder<S>, s: S, a: seq<Byte>, b: seq<Byte>) {
    dec(s, a + b) == Continue(dec, dec(s, a), b)
  }

  ghost predicate Resumes<S(!new)>(dec: Decoder<S>) {
    forall s: S, a: seq<Byte>, b: seq<Byte> :: ResumesAt(dec, s, a, b)
  }

  /**
   Messages arrive one by one; each is appended to what is unread and the decoder runs.
   Once it is done, or has thrown, the bytes of later messages stay unread.
   */
  function Feed<S>(dec: Decoder<S>, s: S, unread: seq<Byte>, messages: seq<seq<Byte>>): Outcome<S>
    decreases |messages|
  {
    if messages == [] then
      Outcome(Wait, s, unread, [])
    else
      var r := dec(s, unread + messages[0]);
      if r.status == Wait then
        Feed(dec, r.state, r.rest, messages[1..]).After(r.calls)
      else
        r.(rest := r.rest + Concat(messages[1..]))
  }

  /** Any cut of the input into messages has the effect of the whole input at once. */
  lemma {:induction false} FeedIsOneShot<S(!new)>(
      dec: Decoder<S>, s: S, unread: seq<Byte>, messages: seq<seq<Byte>>)
    requires Resumes(dec)
    requires messages != []
    ensures Feed(dec, s, unread, messages) == dec(s, unread + Concat(messages))
    decreases |messages|
  {
    var a, b := unread + messages[0], Concat(messages[1..]);
    assert unread + Concat(messages) == a + b;
    var r := dec(s, a);
    assert ResumesAt(dec, s, a, b);
    if messages[1..] == [] {
      assert a + b == a;
      assert r.calls + [] == r.calls;
      assert r.rest + [] == r.rest;
    } else if r.status == Wait {
      FeedIsOneShot(dec, r.state, r.rest, messages[1..]);
    }
  }

  lemma AfterAfter<S>(r: Outcome<S>, a: seq<Call>, b: seq<Call>)
    ensures r.After(b).After(a) == r.After(a + b)
  {
    assert a + (b + r.calls) == (a + b) + r.calls;
  }
}
