/** One exec'd client process with its stdin held open
    (internal/flush/session.go). The goroutine that streams it runs between any
    two statements of the program's own; Pass is that interleaving. */
module FlushSession {
  import opened Outcome
  import opened Text
  import opened FlushClient

  /** What the stream call returned: no error, a process's exit code, or a
      stream that broke. */
  datatype Exit = Success | Code(code: nat) | Broken

  datatype Failure = SessionEnded(exit: Exit) | NotSent | Cancelled | TimedOut

  /** Where the streaming goroutine is. */
  datatype Phase = Streaming | ReaderClosed | Reported(exit: Exit)

  /** An end the stream call can have reported for this process. */
  predicate Told(c: Client, e: Exit) {
    match e
    case Success => Clean(c)
    case Code(code) => c.exit == Some(code) && code != 0
    case Broken => c.severed
  }

  /** What the stream call returns for a process that has ended, or whose
      stream has. */
  function EndOf(c: Client): (e: Exit)
    requires c.exit.Some? || c.severed
    ensures Told(c, e)
  {
    if c.severed then Broken else if c.exit.value == 0 then Success else Code(c.exit.value)
  }

  /** The process and its server go on by themselves, in any way they can. */
  method RunOn(c: Client, over: bool) returns (d: Client)
    requires Inv(c)
    ensures Inv(d) && Later(c, d)
    ensures over ==> d.severed == c.severed
  {
    d :| Inv(d) && Later(c, d) && (over ==> d.severed == c.severed);
  }

  method RunToEnd(c: Client) returns (d: Client)
    requires Inv(c)
    ensures Inv(d) && Later(c, d) && (d.exit.Some? || d.severed)
  {
    ghost var cut := c.(severed := true);
    assert Inv(cut) && Later(c, cut);
    d :| Inv(d) && Later(c, d) && (d.exit.Some? || d.severed);
  }

  class Session {
    var client: Client        // the process and its server, at the other end
    var output: string        // what of its printing has arrived
    var done: seq<Exit>       // the channel, with room for one
    var phase: Phase
    var secrets: seq<string>  // the lines written ahead of the statements

    /** Between calls the channel holds the exit error exactly when the
        goroutine has reported it; while a method has taken it, not even then. */
    ghost predicate Holds(taken: bool)
      reads this
    {
      && Inv(client)
      && output <= client.out
      && (phase.Reported? ==> Told(client, phase.exit))
      && (taken ==> phase.Reported?)
      && (phase != Streaming ==> client.exit.Some? || client.severed)
      && done == (if phase.Reported? && !taken then [phase.exit] else [])
    }

    ghost predicate Valid()
      reads this
    {
      Holds(false)
    }

    /** Nothing was taken back: the process only went on, what had arrived is
        still there, and an end that was reported is the one reported now. */
    twostate predicate Onward()
      reads this
    {
      && old(output) <= output
      && (old(phase).Reported? ==> phase == old(phase))
      && (old(phase).ReaderClosed? ==> phase != Streaming)
    }

    /** The password, if there is one, was written, and nothing else with it. */
    predicate LoggedIn(password: Option<string>)
      reads this
    {
      secrets == if password.Some? then [password.value] else []
    }

    constructor Open()
      ensures Valid() && client == STARTED && phase == Streaming && secrets == []
    {
      client, output, done, phase, secrets := STARTED, "", [], Streaming, [];
    }

    /** Time passes: the process may run on, some of its output may arrive, and
        the goroutine may go further if the process has ended. Its send never
        finds the channel full, even while a method has the value out. */
    method Pass(ghost taken: bool)
      requires Holds(taken)
      modifies `client, `output, `done, `phase
      ensures Holds(taken) && Onward() && Later(old(client), client)
      ensures old(phase).Reported? ==> done == old(done)
    {
      ghost var before := client;
      client := RunOn(client, phase.Reported?);
      if phase.Reported? {
        ToldStays(before, client, phase.exit);
      }
      var arrived: nat, closes: bool, reports: bool := *, *, *;
      if |output| <= arrived <= |client.out| {
        output := client.out[..arrived];
      }
      if (client.exit.Some? || client.severed) && phase == Streaming && closes {
        phase := ReaderClosed;
      }
      if phase == ReaderClosed && reports {
        phase := Reported(EndOf(client));
        assert done == [];
        done := done + [EndOf(client)];
      }
    }

    /** The take and put-back every method reads the channel with. */
    method Peek() returns (exit: Exit)
      requires Valid() && phase.Reported?
      modifies `client, `output, `done, `phase
      ensures Valid() && Onward() && Later(old(client), client) && exit == phase.exit
    {
      exit := done[0];
      done := done[1..];
      Pass(true);
      assert done == [];
      done := done + [exit];
    }

    /** One line into the pipe. The pipe hands it over only to a reader. */
    method WriteString(statement: string, secret: bool) returns (sent: bool, ghost at: Client)
      requires Valid()
      modifies `client, `output, `done, `phase
      ensures Valid() && Onward()
      ensures Later(old(client), at) && Inv(at)
      ensures old(client).eof || old(phase) != Streaming ==> !sent
      ensures !sent ==> old(client).eof || phase != Streaming
      ensures Later(if sent && !secret then Deliver(at, statement) else at, client)
    {
      if client.eof {
        return false, client;
      }
      Pass(false);
      at := client;
      sent := phase == Streaming;
      if sent && !secret {
        DeliverKeeps(client, statement);
        client := Deliver(client, statement);
      }
      ghost var delivered := client;
      Pass(false);
      LaterTransitive(delivered, delivered, client);
    }

    method Write(statement: string) returns (failed: Option<Failure>, ghost at: Client)
      requires Valid()
      modifies `client, `output, `done, `phase
      ensures Valid() && Onward()
      ensures Later(old(client), at) && Inv(at)
      ensures Later(if failed.None? then Deliver(at, statement) else at, client)
      ensures old(phase).Reported? ==> failed == Some(SessionEnded(old(phase).exit))
      ensures old(phase) != Streaming || old(client).eof ==> failed.Some?
      ensures failed.Some? ==> old(client).eof || phase != Streaming
      ensures failed.Some? && failed.value.SessionEnded? ==> old(phase) == Reported(failed.value.exit)
    {
      if done != [] {
        var exit := Peek();
        return Some(SessionEnded(exit)), client;
      }
      var sent;
      sent, at := WriteString(statement, false);
      failed := if sent then None else Some(NotSent);
    }

    /** The password line is read by the script around the client, so it is no
        statement. */
    method WriteSecret(line: string) returns (failed: Option<Failure>)
      requires Valid()
      modifies this
      ensures Valid() && Onward() && Later(old(client), client)
      ensures secrets == old(secrets) + (if failed.None? then [line] else [])
      ensures old(phase).Reported? ==> failed == Some(SessionEnded(old(phase).exit))
      ensures old(phase) != Streaming || old(client).eof ==> failed.Some?
      ensures failed.Some? ==> old(client).eof || phase != Streaming
    {
      if done != [] {
        var exit := Peek();
        return Some(SessionEnded(exit));
      }
      ghost var at;
      var sent;
      sent, at := WriteString(line, true);
      LaterTransitive(old(client), at, client);
      if sent {
        secrets := secrets + [line];
      }
      failed := if sent then None else Some(NotSent);
    }

    /** Waits until the marker has arrived, looking once a tick. A deadline is a
        number of ticks; the context may be cancelled at any of them. */
    method WaitFor(marker: string, deadline: nat) returns (failed: Option<Failure>)
      requires Valid()
      modifies `client, `output, `done, `phase
      ensures Valid() && Onward() && Later(old(client), client)
      ensures failed.None? ==> Contains(output, marker) && Contains(client.out, marker)
      ensures Contains(old(output), marker) ==> failed.None?
      ensures failed.Some? && failed.value.SessionEnded? ==> phase == Reported(failed.value.exit)
      ensures failed != Some(NotSent)
    {
      var ticks := deadline;
      while true
        invariant Valid() && Onward() && Later(old(client), client)
        invariant Contains(old(output), marker) ==> ticks == deadline
        decreases ticks
      {
        if Contains(output, marker) {
          assert output == client.out[0..|output|];
          ContainsInPart(client.out, 0, |output|, marker);
          return None;
        }
        if Contains(old(output), marker) {
          assert old(output) == output[0..|old(output)|];
          ContainsInPart(output, 0, |old(output)|, marker);
        }
        var ended: bool, cancelled: bool := *, *;
        if done != [] && ended {
          var exit := Peek();
          return Some(SessionEnded(exit));
        }
        if ticks == 0 {
          return Some(TimedOut);
        }
        if cancelled {
          return Some(Cancelled);
        }
        ticks := ticks - 1;
        ghost var before := client;
        Pass(false);
        LaterTransitive(old(client), before, client);
      }
    }

    /** Blocks on the channel until the goroutine has reported. */
    method AwaitDone() returns (exit: Exit)
      requires Valid()
      modifies `client, `output, `done, `phase
      ensures Valid() && Onward() && Later(old(client), client)
      ensures phase == Reported(exit)
    {
      Pass(false);
      if done == [] {
        ghost var before := client;
        client := RunToEnd(client);
        phase := Reported(EndOf(client));
        done := done + [EndOf(client)];
        LaterTransitive(old(client), before, client);
      }
      ghost var before := client;
      exit := Peek();
      LaterTransitive(old(client), before, client);
    }

    /** Closes stdin and waits for the process. The error is kept for every
        later call. */
    method Close() returns (exit: Exit)
      requires Valid()
      modifies `client, `output, `done, `phase
      ensures Valid() && Onward() && phase == Reported(exit)
      ensures Later(Closed(old(client)), client)
      ensures exit == Success ==> Clean(client)
      ensures old(phase).Reported? ==> exit == old(phase).exit
    {
      ClosedKeeps(client);
      client := Closed(client);
      exit := AwaitDone();
    }
  }

  lemma ToldStays(c: Client, d: Client, e: Exit)
    requires Later(c, d) && d.severed == c.severed && Told(c, e)
    ensures Told(d, e)
  {}

  lemma ClosedKeeps(c: Client)
    requires Inv(c)
    ensures Inv(Closed(c)) && (forall e :: Told(c, e) ==> Told(Closed(c), e))
  {}
}
