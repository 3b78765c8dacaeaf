/** OrisunClient.Close of client.go: who closes the connection, and how often. */
module ClientClose {
  import opened Common

  /** A client: what it holds, and the results of the conn.Close calls it made, in order. */
  datatype Client = Client(hasConn: bool, ownsConn: bool, closed: bool, connCloses: seq<Option<string>>)

  /** The effect of one Close; answer is what conn.Close returns if it is called. */
  function Closed(c: Client, answer: Option<string>): Client {
    if c.closed then c
    else if c.hasConn && c.ownsConn then
      c.(closed := answer.None?, connCloses := c.connCloses + [answer])
    else c.(closed := true)
  }

  class OrisunClient {
    const hasConn: bool
    const ownsConn: bool
    var closed: bool
    var connCloses: seq<Option<string>>

    function View(): Client
      reads this
    {
      Client(hasConn, ownsConn, closed, connCloses)
    }

    constructor (hasConn: bool, ownsConn: bool)
      ensures View() == Client(hasConn, ownsConn, false, [])
    {
      this.hasConn, this.ownsConn, closed, connCloses := hasConn, ownsConn, false, [];
    }

    /** The lock is held throughout, so calls of different threads follow one another. */
    method Close(answer: Option<string>) returns (err: Option<string>)
      modifies this
      ensures View() == Closed(old(View()), answer)
      ensures err.None? <==> closed
      ensures err.Some? ==> err == answer
    {
      if closed {
        return None;
      }
      if hasConn && ownsConn {
        err := answer;
        connCloses := connCloses + [err];
        if err.Some? {
          return;
        }
      }
      closed := true;
      return None;
    }
  }

  function CloseAll(c: Client, answers: seq<Option<string>>): Client
    decreases |answers|
  {
    if answers == [] then c else Closed(CloseAll(c, answers[..|answers| - 1]), answers[|answers| - 1])
  }

  /**
    After any number of Close calls: a connection that is missing or was lent to the client is never
    closed; one that it owns is closed again and again until that succeeds, and then never more.
   */
  lemma {:induction false} ClosesOwnedUntilSuccess(hasConn: bool, ownsConn: bool, answers: seq<Option<string>>)
    ensures var c := CloseAll(Client(hasConn, ownsConn, false, []), answers);
            && c.hasConn == hasConn && c.ownsConn == ownsConn
            && (!(hasConn && ownsConn) ==> c.connCloses == [] && (c.closed <==> answers != []))
            && (hasConn && ownsConn ==>
                  && c.connCloses <= answers
                  && (forall i :: 0 <= i < |c.connCloses| - 1 ==> c.connCloses[i].Some?)
                  && (c.closed <==> c.connCloses != [] && c.connCloses[|c.connCloses| - 1].None?)
                  && (c.closed <==> exists i :: 0 <= i < |answers| && answers[i].None?)
                  && (!c.closed ==> c.connCloses == answers))
    decreases |answers|
  {
    if answers != [] {
      ClosesOwnedUntilSuccess(hasConn, ownsConn, answers[..|answers| - 1]);
      assert answers == answers[..|answers| - 1] + [answers[|answers| - 1]];
    }
  }
}
