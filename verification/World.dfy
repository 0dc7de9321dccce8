/** Everything a request meets that the rotation loop does not decide: upstream, client, clock, other requests. */
module Environment {
  import opened Base
  import opened PoolSpec
  import opened Policy
  import opened Calendar

  /** Three digits, which is all that an HTTP client checks of a status: 000 passes. */
  type HttpStatus = s: int | 0 <= s <= 999 witness 200

  /** What the loop reads of a response header. */
  datatype Header = Header(retryAfter: Option<string>, isJson: bool)

  const NO_HEADER: Header := Header(None, false)
  const NO_BODY: Body := Body("", None, -1)

  /** One upstream request's outcome. */
  datatype Reply =
    | NetError
    | Response(status: HttpStatus, header: Header, body: Body, overCap: bool)

  /** How a wait in `WaitForSlot`'s select ends. */
  datatype WaitEnd = TookToken | TimedOut | ClientGone

  class World {
    const replies: nat -> Reply
    const cutSleeps: nat -> bool
    const others: nat -> seq<Op>
    const usages: nat -> Usage
    const waits: nat -> WaitEnd
    const pauses: nat -> nat
    const departures: nat -> bool
    var clientGone: bool
    var sent: nat
    var slept: nat
    var turn: nat
    var fetched: nat
    var waited: nat
    var readings: nat
    var now: nat
    /** The keys that upstream was sent requests with. */
    ghost var keysSent: set<string>
    /** When the latest wait in the select began and when it ended, and the longest step the clock took. */
    ghost var waitBegan: int
    ghost var waitEnded: int
    ghost var longestStep: nat

    constructor (replies: nat -> Reply, cutSleeps: nat -> bool, others: nat -> seq<Op>, usages: nat -> Usage,
                 waits: nat -> WaitEnd, pauses: nat -> nat, departures: nat -> bool, now: nat)
      ensures !clientGone
      ensures this.replies == replies && this.others == others && this.now == now && sent == 0
    {
      this.replies, this.cutSleeps, this.others, this.usages := replies, cutSleeps, others, usages;
      this.waits, this.pauses, this.departures, this.now := waits, pauses, departures, now;
      clientGone := false;
      sent, slept, turn, fetched, waited, readings := 0, 0, 0, 0, 0, 0;
      keysSent, waitBegan, waitEnded, longestStep := {}, -1, -1, 0;
    }

    /** No other request and no ticker touches the pool. */
    ghost predicate Quiet() {
      forall k :: others(k) == []
    }

    /** Time runs forwards, and a client that has gone stays away. */
    twostate predicate Later()
      reads this
    {
      && now >= old(now) && longestStep >= old(longestStep) && waited >= old(waited)
      && (old(clientGone) ==> clientGone)
    }

    /** Since then nothing waited in the select from `until` on, or beyond it. */
    twostate predicate WaitsUntil(until: int)
      reads this
    {
      && (waitBegan == old(waitBegan) || waitBegan < until)
      && (waitEnded == old(waitEnded) || waitEnded <= until)
      && (waited == old(waited) ==> waitBegan == old(waitBegan) && waitEnded == old(waitEnded))
    }

    /** What the clock will say when it is read next. */
    ghost function NextReading(): nat
      reads this
    {
      now + pauses(readings) + 1
    }

    /** Reads the clock, which moves on between two readings. */
    method Now() returns (t: nat)
      modifies `now, `readings, `longestStep
      ensures t == now == old(NextReading()) && now > old(now)
      ensures longestStep == Max(old(longestStep), now - old(now))
    {
      longestStep := Max(longestStep, pauses(readings) + 1);
      now := now + pauses(readings) + 1;
      readings := readings + 1;
      t := now;
    }

    method Send(key: string) returns (reply: Reply)
      modifies `sent, `keysSent
      ensures reply == replies(old(sent)) && sent == old(sent) + 1 && keysSent == old(keysSent) + {key}
    {
      keysSent := keysSent + {key};
      reply := replies(sent);
      sent := sent + 1;
    }

    /** Sleeps for `d`, or until the client goes away. */
    method SleepOrCancel(d: nat) returns (canceled: bool)
      modifies `slept, `now, `clientGone
      ensures canceled == (cutSleeps(old(slept)) || old(clientGone)) && clientGone == canceled
      ensures now == if canceled then old(now) else old(now) + d
    {
      canceled := cutSleeps(slept) || clientGone;
      clientGone := canceled;
      slept := slept + 1;
      if !canceled {
        now := now + d;
      }
    }

    /** Goes on waiting until `t`. */
    method SleepUntil(t: int)
      modifies `now, `waitEnded
      ensures now == waitEnded == if t > old(now) then t else old(now)
    {
      if t > now {
        now := t;
      }
      waitEnded := now;
    }

    method FetchUsage() returns (usage: Usage)
      modifies `fetched
      ensures usage == usages(old(fetched)) && fetched == old(fetched) + 1
    {
      usage := usages(fetched);
      fetched := fetched + 1;
    }

    /** How a wait ends. Once the client is gone none of them lasts until the deadline. */
    method Wait() returns (end: WaitEnd)
      modifies `waited, `clientGone, `waitBegan, `waitEnded
      ensures clientGone == (old(clientGone) || end == ClientGone)
      ensures end == TimedOut ==> !clientGone
      ensures waitBegan == waitEnded == now && waited == old(waited) + 1
    {
      waitBegan, waitEnded := now, now;
      end := waits(waited);
      waited := waited + 1;
      if end == TimedOut && clientGone {
        end := ClientGone;
      }
      clientGone := clientGone || end == ClientGone;
    }

    /** What the others do to the pool at this point, at which the client may also leave. */
    method NextTurn() returns (ops: seq<Op>)
      modifies `turn, `clientGone
      ensures Quiet() ==> ops == []
      ensures old(clientGone) ==> clientGone
    {
      ops := others(turn);
      clientGone := clientGone || departures(turn);
      turn := turn + 1;
    }
  }
}
