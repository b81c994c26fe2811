/** Oneshot channels, named by their position: each is opened for a request and receives at most one answer. */
module Oneshot {
  import opened Wrappers

  datatype Channel<R, A> = Channel(request: R, answer: Option<A>)

  /** The channel was opened for the request and has not been used. */
  ghost predicate IsOpen<R, A>(channels: seq<Channel<R, A>>, c: nat, request: R) {
    c < |channels| && channels[c] == Channel(request, None)
  }

  predicate HasAnswer<R, A>(channels: seq<Channel<R, A>>, c: nat) {
    c < |channels| && channels[c].answer.Some?
  }

  function Send<R, A>(channels: seq<Channel<R, A>>, c: nat, answer: A): seq<Channel<R, A>> {
    if c < |channels| then channels[c := channels[c].(answer := Some(answer))] else channels
  }

  /** Channels are only added, and one that has its answer receives no other. */
  ghost predicate AnswersKept<R, A>(before: seq<Channel<R, A>>, after: seq<Channel<R, A>>) {
    && |before| <= |after|
    && forall c :: 0 <= c < |before| ==>
         after[c].request == before[c].request && (before[c].answer.Some? ==> after[c] == before[c])
  }
}
