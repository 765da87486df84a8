/**
 The two signal relays of the server: what one `sending-signal` or
 `returning-signal` listener hands to the transport. The signal itself is an
 offer, answer or ICE candidate that the relay never looks into, so its type is
 the parameter `S`.
 */
module Relay {
  import opened Membership

  datatype Option<T> = None | Some(value: T)

  /** The body of `sending-signal`; the sender may put its own claim in `callerId`. */
  datatype SignalPayload<S> = SignalPayload(userToSignal: SessionId, signal: S, callerId: Option<SessionId>)

  /** The body of `returning-signal`: the answer and the peer that sent the offer. */
  datatype ReturningSignalPayload<S> = ReturningSignalPayload(signal: S, callerId: SessionId)

  /** An event addressed to the single socket `to`. */
  datatype Envelope<S> =
    | UserJoined(to: SessionId, signal: S, callerId: SessionId)
    | ReceivingReturnedSignal(to: SessionId, signal: S, id: SessionId)

  /** The event name the transport emits for an envelope. */
  function EventName<S>(e: Envelope<S>): (name: string)
  {
    match e
    case UserJoined(_, _, _) => "user-joined"
    case ReceivingReturnedSignal(_, _, _) => "receiving-returned-signal"
  }

  /** The `user-joined` event a `sending-signal` from `sender` produces. */
  function ForwardSignal<S>(sender: SessionId, p: SignalPayload<S>): (e: Envelope<S>)
    ensures e.UserJoined? && e.to == p.userToSignal && e.callerId == sender && e.signal == p.signal
  {
    UserJoined(p.userToSignal, p.signal, sender)
  }

  /** The `receiving-returned-signal` event a `returning-signal` from `sender` produces. */
  function ReturnSignal<S>(sender: SessionId, p: ReturningSignalPayload<S>): (e: Envelope<S>)
    ensures e.ReceivingReturnedSignal? && e.to == p.callerId && e.id == sender && e.signal == p.signal
  {
    ReceivingReturnedSignal(p.callerId, p.signal, sender)
  }

  /**
   A forwarded offer goes to the named target only, names the sending socket as
   caller whatever the payload claims, and carries the signal unchanged.
   */
  lemma ForwardSignalEnvelope<S>(sender: SessionId, p: SignalPayload<S>, claimed: Option<SessionId>)
    ensures EventName(ForwardSignal(sender, p)) == "user-joined"
    ensures ForwardSignal(sender, p).to == p.userToSignal
    ensures ForwardSignal(sender, p).callerId == sender
    ensures ForwardSignal(sender, p).signal == p.signal
    ensures ForwardSignal(sender, p.(callerId := claimed)) == ForwardSignal(sender, p)
  {
  }

  /**
   A returned answer goes to the caller named in the payload, names the
   answering socket as `id`, and carries the signal unchanged.
   */
  lemma ReturnSignalEnvelope<S>(sender: SessionId, p: ReturningSignalPayload<S>)
    ensures EventName(ReturnSignal(sender, p)) == "receiving-returned-signal"
    ensures ReturnSignal(sender, p).to == p.callerId
    ensures ReturnSignal(sender, p).id == sender
    ensures ReturnSignal(sender, p).signal == p.signal
  {
  }

  /**
   The offer/answer exchange closes: when `a` forwards an offer to `b` and `b`
   answers the caller named in what it received, the answer reaches `a` from
   `b`, even if `a` claimed another caller id in its payload.
   */
  lemma OfferAnswerRoundTrip<S>(a: SessionId, b: SessionId, offer: S, answer: S, claimed: Option<SessionId>)
    ensures var received := ForwardSignal(a, SignalPayload(b, offer, claimed));
            var returned := ReturnSignal(b, ReturningSignalPayload(answer, received.callerId));
            received.to == b && received.signal == offer &&
            returned.to == a && returned.id == b && returned.signal == answer
  {
  }
}
