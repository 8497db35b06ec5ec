/** One client as its broadcaster sees it: the state of the connection and the bytes still to send. */
module Outgoing {
  import opened Options
  import opened Wire
  import opened Receiver

  datatype Phase = Down | Connecting | Login | Ready

  datatype Out = Out(phase: Phase, unsent: string) {
    predicate Busy() {
      unsent != ""
    }

    /** The connection is lost, or could not be made; what was not sent is dropped. */
    function Lose(): Out {
      Out(Down, "")
    }

    /** A new connection starts with the broadcaster's own name. */
    function Greet(login: string): Out
      requires Framable(login)
    {
      Out(Login, Frame(login))
    }

    /** The next n bytes have been sent. When the login is out, the initial message follows. */
    function Sent(n: nat, init: Option<string>): Out
      requires n <= |unsent| && (init.Some? ==> Framable(init.value))
    {
      var rest := unsent[n..];
      if rest == "" && phase.Login? then Out(Ready, if init.Some? then Frame(init.value) else "") else Out(phase, rest)
    }

    /** The next message goes to every client that is connected. */
    function Offer(m: string): Out
      requires Framable(m)
    {
      if phase.Login? || phase.Ready? then Out(phase, Frame(m)) else this
    }
  }
}
