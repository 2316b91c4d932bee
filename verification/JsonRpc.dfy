/**
 The JSON-RPC client on a plugin's standard input and output (section 5 of the JSON-RPC 2.0
 specification): a call writes a request and reads frames until the one that answers it.
 */
module JsonRpc {
  import opened Wrappers
  import opened Frames

  // A decoded frame. A notification has a method; an absent ID reads as 0.
  datatype Msg = Msg(id: int, notification: string, error: Option<string>, result: Bytes)

  datatype Reply = Ok(result: Bytes) | RpcError(message: string) | BadResult | Dead

  /** A frame that does not answer a call: bad, a notification, or a stale reply. */
  predicate PassedOver(id: int, o: Frames.Outcome<Msg>) {
    o.Frame? ==> o.msg.notification != "" || o.msg.id != id
  }

  predicate AllPassedOver(id: int, taken: seq<Frames.Outcome<Msg>>) {
    forall i :: 0 <= i < |taken| ==> PassedOver(id, taken[i])
  }

  /**
   What a call makes of its reply. The result must decode into what the caller expects; that
   covers a caller that expects nothing and a null result.
   */
  function ReplyOf(m: Msg, decodes: Bytes -> bool): Reply {
    if m.error.Some? then RpcError(m.error.value)
    else if m.result == [] || decodes(m.result) then Reply.Ok(m.result)
    else BadResult
  }

  /** How a call ends: with the first frame that answers it, or without one. */
  predicate Ends(id: int, taken: seq<Frames.Outcome<Msg>>, r: Reply, decodes: Bytes -> bool) {
    if r.Dead? then AllPassedOver(id, taken)
    else
      && taken != [] && AllPassedOver(id, taken[..|taken| - 1])
      && var last := taken[|taken| - 1];
         !PassedOver(id, last) && r == ReplyOf(last.msg, decodes)
  }

  /** A frame with the call's number that is no notification. */
  predicate Answers(id: int, o: Frames.Outcome<Msg>) {
    o.Frame? && o.msg.notification == "" && o.msg.id == id
  }

  /**
   The last frame read is the only one that answers the call: its error is the call's error, else
   its result, if it has none or one that decodes, is the call's result. A dead call read no answer.
   */
  ghost predicate EndsWith(id: int, taken: seq<Frames.Outcome<Msg>>, r: Reply, decodes: Bytes -> bool) {
    if r.Dead? then forall i :: 0 <= i < |taken| ==> !Answers(id, taken[i])
    else
      && taken != [] && (forall i :: 0 <= i < |taken| ==> (Answers(id, taken[i]) <==> i == |taken| - 1))
      && var m := taken[|taken| - 1].msg;
         match m.error {
           case Some(message) => r == RpcError(message)
           case None =>
             && (m.result == [] || decodes(m.result) ==> r == Reply.Ok(m.result))
             && (m.result != [] && !decodes(m.result) ==> r == BadResult)
         }
  }

  lemma EndsDirectly(id: int, taken: seq<Frames.Outcome<Msg>>, r: Reply, decodes: Bytes -> bool)
    requires Ends(id, taken, r, decodes)
    ensures EndsWith(id, taken, r, decodes)
  {
    if !r.Dead? {
      assert forall i :: 0 <= i < |taken| - 1 ==> taken[..|taken| - 1][i] == taken[i];
    }
  }

  // A call made on a live transport: its ID, the outcomes it read, and its reply.
  datatype Entry = Entry(id: int, taken: seq<Frames.Outcome<Msg>>, reply: Reply)

  function Taken(log: seq<Entry>): seq<Frames.Outcome<Msg>> {
    if log == [] then [] else Taken(log[..|log| - 1]) + log[|log| - 1].taken
  }

  predicate Numbered(log: seq<Entry>) {
    forall i :: 0 <= i < |log| ==> log[i].id == i + 1
  }

  lemma OneMoreCall(all: seq<Frames.Outcome<Msg>>, log: seq<Entry>, e: Entry, left: seq<Frames.Outcome<Msg>>)
    requires Numbered(log) && e.id == |log| + 1 && all == Taken(log) + (e.taken + left)
    ensures Numbered(log + [e]) && all == Taken(log + [e]) + left
  {
    var more := log + [e];
    assert more[..|log|] == log;
    assert Taken(more) == Taken(log) + e.taken;
    Regroup(Taken(log), e.taken, left);
  }

  lemma Regroup<T>(a: seq<T>, b: seq<T>, c: seq<T>)
    ensures a + (b + c) == a + b + c
  {
  }

  class Client {
    const dec: Decoder<Msg>
    var nextId: int
    var dead: bool
    ghost const start: Bytes
    ghost var log: seq<Entry>

    ghost function Left(): seq<Frames.Outcome<Msg>>
      requires dec.format.buffer > 0
      reads dec
    {
      Outcomes(dec.format, dec.data, dec.end)
    }

    /** All that was read was read by one call, in order; IDs count up from 1. */
    ghost predicate Valid()
      reads this, dec
    {
      && dec.format.buffer > 0 && nextId == |log| + 1 && Numbered(log)
      && Outcomes(dec.format, start, dec.end) == Taken(log) + Left()
    }

    constructor (dec: Decoder<Msg>)
      requires dec.format.buffer > 0
      ensures Valid() && this.dec == dec && log == [] && !dead
    {
      this.dec, nextId, dead, start, log := dec, 1, false, dec.data, [];
    }

    // Reads frames until the one that answers the call.
    method Await(id: int, decodes: Bytes -> bool) returns (r: Reply, ghost taken: seq<Frames.Outcome<Msg>>)
      requires dec.format.buffer > 0 && !dead
      modifies this`dead, dec
      ensures dead == r.Dead? && Ends(id, taken, r, decodes) && old(Left()) == taken + Left()
    {
      taken := [];
      ghost var stream := Left();
      while true
        invariant !dead && stream == taken + Left() && AllPassedOver(id, taken)
        decreases |dec.data|
      {
        // A timed-out call elsewhere may have marked the transport dead.
        var killed: bool := *;
        if killed {
          dead := true;
          return Dead, taken;
        }
        var next := dec.Decode();
        if next.None? {
          dead := true;
          return Dead, taken;
        }
        ghost var before := taken;
        taken := taken + [next.value];
        assert taken[..|before|] == before;
        Regroup(before, [next.value], Left());
        if next.value.Malformed? {
          continue;
        }
        var m := next.value.msg;
        if m.notification != "" || m.id != id {
          continue;
        }
        return ReplyOf(m, decodes), taken;
      }
    }

    /**
     A call on a live transport gets a number of its own and ends with the first frame that
     carries it, or kills the transport; a dead transport reads nothing.
     */
    method Call(decodes: Bytes -> bool) returns (r: Reply, ghost taken: seq<Frames.Outcome<Msg>>)
      requires Valid()
      modifies this, dec
      ensures Valid() && dead == r.Dead?
      ensures old(dead) ==> log == old(log) && dec.data == old(dec.data) && nextId == old(nextId)
      ensures !old(dead) ==>
        log == old(log) + [Entry(old(nextId), taken, r)] && Ends(old(nextId), taken, r, decodes) &&
          old(Left()) == taken + Left()
      ensures !old(dead) ==> EndsWith(old(nextId), taken, r, decodes)
    {
      if dead {
        return Dead, [];
      }
      var id := nextId;
      ghost var all := Taken(log) + Left();
      nextId := nextId + 1;
      var written: bool := *;
      if written {
        r, taken := Await(id, decodes);
      } else {
        dead := true;
        r, taken := Dead, [];
      }
      EndsDirectly(id, taken, r, decodes);
      OneMoreCall(all, log, Entry(id, taken, r), Left());
      log := log + [Entry(id, taken, r)];
    }
  }
}
