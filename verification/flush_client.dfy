/** The client process a flush session talks to (internal/flush/spec.go): a
    batch client that runs the statements of its stdin in order, stops at its
    first error, and may echo what it was sent. Everything it and its server do
    on their own is an event the environment picks. */
module FlushClient {
  import opened Outcome
  import opened Text

  const MARKER := "pv-migrate-" + "quiesced"
  const PROBE := "SELECT CONCAT(" + "'pv-migrate'" + ", " + "'-quiesced'" + ");"
  const IDENTIFY := "SELECT CONCAT(" + ("'pv-migrate'" + ", " + ("'-server='" + ", " + ("@@version" + ", " +
    ("'|'" + ", " + ("@@version_comment" + ", " + ("'|pv-migrate'" + ", " + "'-end'")))))) + ");"

  datatype Lock = Lock(statement: string, unlock: string)

  const LOCK_INSTANCE := Lock("LOCK INSTANCE FOR BACKUP;", "UNLOCK INSTANCE;")
  const LOCK_TABLES := Lock("LOCK TABLES FOR BACKUP;", "UNLOCK TABLES;")
  const READ_LOCK := Lock("FLUSH TABLES WITH READ LOCK;", "UNLOCK TABLES;")
  const BACKUP_STAGE := Lock("BACKUP STAGE START; " + "BACKUP STAGE BLOCK_COMMIT;", "BACKUP STAGE END;")

  const LOCKS := {LOCK_INSTANCE, LOCK_TABLES, READ_LOCK, BACKUP_STAGE}

  /** What a server can be holding for a session. */
  datatype Held = Nothing | Instance | Tables | Stage

  /** What a statement takes, on the servers that have it, */
  function Taken(statement: string): Held {
    if statement == "LOCK INSTANCE FOR BACKUP;" then Instance
    else if statement == "LOCK TABLES FOR BACKUP;" || statement == "FLUSH TABLES WITH READ LOCK;" then Tables
    else if statement == "BACKUP STAGE START; " + "BACKUP STAGE BLOCK_COMMIT;" then Stage
    else Nothing
  }

  /** and what it lets go of. */
  function Dropped(statement: string): Held {
    if statement == "UNLOCK INSTANCE;" then Instance
    else if statement == "UNLOCK TABLES;" then Tables
    else if statement == "BACKUP STAGE END;" then Stage
    else Nothing
  }

  function HeldAfter(held: Held, statement: string): Held {
    if Taken(statement) != Nothing then Taken(statement)
    else if Dropped(statement) == held then Nothing
    else held
  }

  /** What the server holds after these statements. */
  function Effect(ran: seq<string>): Held {
    if ran == [] then Nothing else HeldAfter(Effect(ran[..|ran| - 1]), ran[|ran| - 1])
  }

  datatype Client = Client(
    sent: seq<string>,     // the statements written to its stdin
    eof: bool,             // the program has closed its stdin
    severed: bool,         // the exec stream is gone, and stdin with it
    ran: nat,              // how many of them have executed without error
    lost: bool,            // the connection to the server is gone
    exit: Option<nat>,     // its exit code
    out: string,           // everything it printed
    held: Held             // the lock the server holds for it
  )

  const STARTED := Client([], false, false, 0, false, None, "", Nothing)

  /** A stretch of output up to a character that cannot be part of the marker:
      the client's or the server's own words, or a piece of something sent. */
  datatype Fragment = Own(text: string, fence: char) | Echo(statement: nat, from: nat, to: nat, fence: char)

  datatype Event =
    | Runs(rows: seq<Fragment>)
    | Fails(code: nat, message: seq<Fragment>)
    | Prints(message: seq<Fragment>)
    | Loses
    | Severs
    | Dies(code: nat)
    | Finishes

  /** Own words do not hold the marker: only the probe's answer does. */
  predicate Fair(f: Fragment, sent: seq<string>) {
    f.fence !in MARKER &&
    match f
    case Own(text, _) => !Contains(text, MARKER)
    case Echo(k, from, to, _) => k < |sent| && from <= to <= |sent[k]|
  }

  function Words(f: Fragment, sent: seq<string>): string
    requires Fair(f, sent)
  {
    match f
    case Own(text, _) => text
    case Echo(k, from, to, _) => sent[k][from..to]
  }

  predicate FairAll(fs: seq<Fragment>, sent: seq<string>) { forall i :: 0 <= i < |fs| ==> Fair(fs[i], sent) }

  function Print(fs: seq<Fragment>, sent: seq<string>): string
    requires FairAll(fs, sent)
  {
    if fs == [] then "" else Words(fs[0], sent) + [fs[0].fence] + Print(fs[1..], sent)
  }

  /** A lost connection fails the next statement, since reconnecting is turned
      off, and only the end of stdin with everything executed gives exit 0. */
  predicate Possible(c: Client, e: Event) {
    c.exit.None? &&
    match e
    case Runs(rows) => c.ran < |c.sent| && !c.lost && FairAll(rows, c.sent)
    case Fails(code, message) => c.ran < |c.sent| && code != 0 && FairAll(message, c.sent)
    case Prints(message) => FairAll(message, c.sent)
    case Loses => true
    case Severs => true
    case Dies(code) => code != 0
    case Finishes => (c.eof || c.severed) && c.ran == |c.sent|
  }

  function Step(c: Client, e: Event): Client
    requires Possible(c, e)
  {
    match e
    case Runs(rows) =>
      var s := c.sent[c.ran];
      c.(ran := c.ran + 1,
         held := HeldAfter(c.held, s),
         out := c.out + (if s == PROBE then MARKER + "\n" else Print(rows, c.sent)))
    case Fails(code, message) => c.(exit := Some(code), held := Nothing, out := c.out + Print(message, c.sent))
    case Prints(message) => c.(out := c.out + Print(message, c.sent))
    case Loses => c.(lost := true, held := Nothing)
    case Severs => c.(severed := true)
    case Dies(code) => c.(exit := Some(code), held := Nothing)
    case Finishes => c.(exit := Some(0), held := Nothing)
  }

  // ---- what holds of every client

  /** Ends where no occurrence of the marker could go on. */
  predicate Fenced(s: string) { s == "" || s[|s| - 1] !in MARKER }

  predicate AllClean(sent: seq<string>) { forall i :: 0 <= i < |sent| ==> !Contains(sent[i], MARKER) }

  predicate Inv(c: Client) {
    && c.ran <= |c.sent|
    && (c.exit == Some(0) ==> (c.eof || c.severed) && c.ran == |c.sent|)
    && (c.exit.None? && !c.lost ==> c.held == Effect(c.sent[..c.ran]))
    && (c.exit.Some? || c.lost ==> c.held == Nothing)
    && Fenced(c.out)
    && (AllClean(c.sent) && Contains(c.out, MARKER) ==> PROBE in c.sent[..c.ran])
  }

  /** Nothing but time passes between the two: what was written stays written,
      a broken session stays broken. */
  predicate Later(c: Client, d: Client) {
    && d.sent == c.sent && d.eof == c.eof && c.ran <= d.ran && c.out <= d.out
    && (c.lost ==> d.lost && d.ran == c.ran)
    && (c.severed ==> d.severed)
    && (c.exit.Some? ==> d.exit == c.exit && d.ran == c.ran)
  }

  lemma {:induction false} PrintedIsClean(before: string, fs: seq<Fragment>, sent: seq<string>)
    requires FairAll(fs, sent) && Fenced(before)
    ensures Fenced(before + Print(fs, sent))
    ensures AllClean(sent) && Contains(before + Print(fs, sent), MARKER) ==> Contains(before, MARKER)
    decreases |fs|
  {
    if fs == [] {
      assert before + Print(fs, sent) == before;
    } else {
      var words, fence := Words(fs[0], sent), fs[0].fence;
      PrintSplits(before, words, fence, Print(fs[1..], sent));
      PrintedIsClean(before + words + [fence], fs[1..], sent);
      if AllClean(sent) {
        WordsAreClean(fs[0], sent);
        NextIsClean(before, words, fence);
      }
    }
  }

  lemma PrintSplits(before: string, words: string, fence: char, rest: string)
    ensures before + (words + [fence] + rest) == before + words + [fence] + rest
  {}

  lemma WordsAreClean(f: Fragment, sent: seq<string>)
    requires Fair(f, sent) && AllClean(sent)
    ensures !Contains(Words(f, sent), MARKER)
  {
    if f.Echo? && Contains(Words(f, sent), MARKER) {
      ContainsInPart(sent[f.statement], f.from, f.to, MARKER);
    }
  }

  lemma NextIsClean(before: string, words: string, fence: char)
    requires Fenced(before) && fence !in MARKER && !Contains(words, MARKER)
    ensures Contains(before + words + [fence], MARKER) ==> Contains(before, MARKER)
  {
    if Contains(before + words + [fence], MARKER) {
      assert before + words + [fence] == (before + words) + [fence] + "";
      FenceSplits(before + words, fence, "", MARKER);
      TooShort("", MARKER);
      assert before == "" ==> before + words == words;
      if before != "" {
        var front, last := before[..|before| - 1], before[|before| - 1];
        assert before + words == front + [last] + words;
        FenceSplits(front, last, words, MARKER);
        assert before[0..|before| - 1] == front;
        ContainsInPart(before, 0, |before| - 1, MARKER);
      }
    }
  }

  /** Every event keeps the invariant and takes nothing back. */
  lemma StepKeeps(c: Client, e: Event)
    requires Inv(c) && Possible(c, e)
    ensures Inv(Step(c, e)) && Later(c, Step(c, e))
  {
    match e
    case Runs(rows) => RunKeeps(c, rows);
    case Fails(_, message) => PrintedIsClean(c.out, message, c.sent);
    case Prints(message) => PrintedIsClean(c.out, message, c.sent);
    case _ =>
  }

  lemma RunKeeps(c: Client, rows: seq<Fragment>)
    requires Inv(c) && Possible(c, Runs(rows))
    ensures Inv(Step(c, Runs(rows))) && Later(c, Step(c, Runs(rows)))
  {
    OneMoreRan(c.sent, c.ran);
    RunLocks(c, rows);
    RunPrints(c, rows);
    assert Step(c, Runs(rows)).sent == c.sent;
  }

  lemma OneMoreRan(sent: seq<string>, ran: nat)
    requires ran < |sent|
    ensures sent[..ran + 1] == sent[..ran] + [sent[ran]]
  {}

  lemma RunLocks(c: Client, rows: seq<Fragment>)
    requires c.ran < |c.sent| && Possible(c, Runs(rows)) && c.held == Effect(c.sent[..c.ran])
    ensures Step(c, Runs(rows)).held == Effect(c.sent[..c.ran + 1])
  {
    OneMoreRan(c.sent, c.ran);
    EffectOfNext(c.sent[..c.ran], c.sent[c.ran]);
  }

  lemma RunPrints(c: Client, rows: seq<Fragment>)
    requires Inv(c) && Possible(c, Runs(rows))
    ensures var d := Step(c, Runs(rows));
            && Fenced(d.out) && c.out <= d.out
            && (AllClean(d.sent) && Contains(d.out, MARKER) ==> PROBE in d.sent[..d.ran])
  {
    OneMoreRan(c.sent, c.ran);
    if c.sent[c.ran] == PROBE {
      ProbePrints(c.out);
    } else {
      PrintedIsClean(c.out, rows, c.sent);
    }
  }

  lemma EffectOfNext(ran: seq<string>, s: string)
    ensures Effect(ran + [s]) == HeldAfter(Effect(ran), s)
  {
    assert (ran + [s])[..|ran|] == ran;
  }

  lemma ProbePrints(out: string)
    ensures Fenced(out + (MARKER + "\n"))
  {
    assert '\n' !in MARKER;
  }

  // ---- runs

  lemma LaterTransitive(a: Client, b: Client, c: Client)
    requires Later(a, b) && Later(b, c)
    ensures Later(a, c)
  {}

  /** Events in a row, each possible where it happens. */
  predicate CanRun(c: Client, events: seq<Event>)
    decreases |events|
  {
    events == [] || (Possible(c, events[0]) && CanRun(Step(c, events[0]), events[1..]))
  }

  function RunAll(c: Client, events: seq<Event>): Client
    requires CanRun(c, events)
    decreases |events|
  {
    if events == [] then c else RunAll(Step(c, events[0]), events[1..])
  }

  lemma {:induction false} RunKeepsInv(c: Client, events: seq<Event>)
    requires Inv(c) && CanRun(c, events)
    ensures Inv(RunAll(c, events)) && Later(c, RunAll(c, events))
    decreases |events|
  {
    if events != [] {
      StepKeeps(c, events[0]);
      RunKeepsInv(Step(c, events[0]), events[1..]);
    }
  }

  // ---- what the program writes

  /** A line written to stdin. It goes nowhere once nobody reads it. */
  function Deliver(c: Client, statement: string): Client {
    if c.eof || c.severed || c.exit.Some? then c else c.(sent := c.sent + [statement])
  }

  function Closed(c: Client): Client { c.(eof := true) }

  lemma DeliverKeeps(c: Client, statement: string)
    requires Inv(c)
    ensures Inv(Deliver(c, statement))
  {
    var longer := c.sent + [statement];
    assert longer[..c.ran] == c.sent[..c.ran];
    if AllClean(longer) {
      assert AllClean(c.sent) by {
        forall i | 0 <= i < |c.sent| ensures !Contains(c.sent[i], MARKER) { assert longer[i] == c.sent[i]; }
      }
    }
  }

  /** The client was given these statements and no others, or broke off. */
  predicate Fed(c: Client, script: seq<string>) {
    c.sent == script || (c.sent <= script && (c.severed || c.exit.Some?))
  }

  lemma FedFurther(c: Client, d: Client, script: seq<string>, statement: string)
    requires Fed(c, script) && Later(c, d) && !d.eof
    ensures Fed(d, script) && Fed(Deliver(d, statement), script + [statement])
  {}

  // ---- no statement holds the marker in its text

  predicate NoQ(s: string) { forall i :: 0 <= i < |s| ==> s[i] != 'q' }

  /** Four of the five kinds of statement lack a letter of the marker. */
  lemma NoQIsClean(s: string)
    requires NoQ(s)
    ensures !Contains(s, MARKER)
  {
    forall i: nat | i <= |s| ensures !At(s, MARKER, i) {
      assert MARKER[11] == 'q';
      if At(s, MARKER, i) {
        AtChar(s, MARKER, i, i + 11);
      }
    }
  }

  /** The probe's text is cut at its quotes, into pieces shorter than the marker. */
  lemma Pieces(a: string, fence: char, b: string)
    requires fence !in MARKER && |a| < |MARKER| && !Contains(b, MARKER)
    ensures !Contains(a + [fence] + b, MARKER)
  {
    if Contains(a + [fence] + b, MARKER) {
      FenceSplits(a, fence, b, MARKER);
      TooShort(a, MARKER);
    }
  }

  lemma ProbeIsClean()
    ensures !Contains(PROBE, MARKER)
  {
    TooShort(");", MARKER);
    Pieces("-quiesced", '\'', ");");
    Pieces(", ", '\'', "-quiesced" + ['\''] + ");");
    Pieces("pv-migrate", '\'', ", " + ['\''] + ("-quiesced" + ['\''] + ");"));
    Pieces("SELECT CONCAT(", '\'', "pv-migrate" + ['\''] + (", " + ['\''] + ("-quiesced" + ['\''] + ");")));
    assert PROBE == "SELECT CONCAT(" + ['\''] +
      ("pv-migrate" + ['\''] + (", " + ['\''] + ("-quiesced" + ['\''] + ");")));
  }

  lemma IdentifyIsClean()
    ensures !Contains(IDENTIFY, MARKER)
  {
    var tail := "'|'" + ", " + ("@@version_comment" + ", " + ("'|pv-migrate'" + ", " + "'-end'"));
    assert NoQ(tail);
    assert NoQ("'-server='" + ", " + ("@@version" + ", " + tail));
    assert NoQ("SELECT CONCAT(") && NoQ("'pv-migrate'") && NoQ(");");
    NoQIsClean(IDENTIFY);
  }

  lemma LockIsClean(l: Lock)
    requires l in LOCKS
    ensures !Contains(l.statement, MARKER) && !Contains(l.unlock, MARKER)
  {
    StatementsHaveNoQ();
    UnlocksHaveNoQ();
    NoQIsClean(l.statement);
    NoQIsClean(l.unlock);
  }

  lemma StatementsHaveNoQ()
    ensures forall l <- LOCKS :: NoQ(l.statement)
  {
    assert NoQ(LOCK_INSTANCE.statement);
    assert NoQ(LOCK_TABLES.statement);
    assert NoQ(READ_LOCK.statement);
    NoQJoined("BACKUP STAGE START; ", "BACKUP STAGE BLOCK_COMMIT;");
  }

  lemma NoQJoined(a: string, b: string)
    requires NoQ(a) && NoQ(b)
    ensures NoQ(a + b)
  {}

  lemma UnlocksHaveNoQ()
    ensures forall l <- LOCKS :: NoQ(l.unlock)
  {
    assert NoQ(LOCK_INSTANCE.unlock);
    assert NoQ(LOCK_TABLES.unlock);
    assert NoQ(BACKUP_STAGE.unlock);
  }

  /** Each lock's statement takes something, and its unlock lets go of just that;
      the other statements do neither. */
  lemma LockTable(l: Lock)
    requires l in LOCKS
    ensures Taken(l.statement) != Nothing && Dropped(l.unlock) == Taken(l.statement) && Taken(l.unlock) == Nothing
    ensures l.statement != PROBE && IDENTIFY != PROBE
    ensures Taken(PROBE) == Nothing && Dropped(PROBE) == Nothing
  {
    assert |PROBE| > 30 && |PROBE| != |BACKUP_STAGE.statement| && |PROBE| != |IDENTIFY|;
  }

  // ---- what a confirmed lock means

  function Script(l: Lock): seq<string> { [IDENTIFY, l.statement, PROBE] }

  lemma ScriptIsClean(l: Lock)
    requires l in LOCKS
    ensures AllClean(Script(l))
  {
    IdentifyIsClean();
    LockIsClean(l);
    ProbeIsClean();
  }

  /** The session is good for as long as the lock is to be held. */
  predicate Alive(c: Client) { c.exit.None? && !c.lost && !c.severed }

  /** What the program knows once it has seen the marker. */
  predicate Confirmed(c: Client, l: Lock) { c.sent == Script(l) && c.ran == 3 && !c.eof }

  /** Marker soundness: a client that was only ever given the script and whose
      output holds the marker has executed the lock statement without error. */
  lemma MarkerConfirms(c: Client, l: Lock)
    requires Inv(c) && l in LOCKS && Fed(c, Script(l)) && !c.eof && Contains(c.out, MARKER)
    ensures Confirmed(c, l)
  {
    ScriptIsClean(l);
    LockTable(l);
    assert AllClean(c.sent) by {
      forall i | 0 <= i < |c.sent| ensures !Contains(c.sent[i], MARKER) { assert c.sent[i] == Script(l)[i]; }
    }
    var i :| 0 <= i < c.ran && c.sent[i] == PROBE;
    assert c.sent[i] == Script(l)[i];
    assert Script(l)[0] == IDENTIFY && Script(l)[1] == l.statement;
  }

  /** From there on the lock is held whenever the session is still alive. */
  lemma ConfirmedHolds(c: Client, d: Client, l: Lock)
    requires l in LOCKS && Confirmed(c, l) && Later(c, d) && Inv(d)
    ensures Confirmed(d, l) && (Alive(d) ==> d.held == Taken(l.statement) != Nothing)
  {
    LockTable(l);
    var ran := d.sent[..d.ran];
    assert ran == Script(l);
    assert Effect(ran) == Effect(ran[..2]) by { assert ran[|ran| - 1] == PROBE && ran[..|ran| - 1] == ran[..2]; }
    assert ran[..2][|ran[..2]| - 1] == l.statement;
  }

  /** No clean exit any more, whatever happens. */
  predicate Doomed(c: Client) {
    c.severed || (c.exit.Some? && c.exit.value != 0) || (c.lost && c.ran < |c.sent|)
  }

  /** How an exec ends that reports no error. */
  predicate Clean(c: Client) { c.exit == Some(0) && !c.severed }

  /** What a released client has executed: the script, and then the unlock, so
      that no lock is left when it ends. */
  predicate Unlocked(c: Client, l: Lock) {
    Clean(c) && c.ran <= |c.sent| && c.sent[..c.ran] == Script(l) + [l.unlock] && Effect(c.sent[..c.ran]) == Nothing
  }

  /** A clean end of a confirmed client that was sent the unlock and nothing else
      is one that has executed it. */
  lemma CleanIsUnlocked(held: Client, written: Client, after: Client, end: Client, l: Lock)
    requires l in LOCKS && Confirmed(held, l) && Inv(written) && Inv(end)
    requires Later(held, written) && Later(Deliver(written, l.unlock), after) && Later(Closed(after), end)
    requires Clean(end)
    ensures Unlocked(end, l)
  {
    assert !written.severed && !written.exit.Some?;
    assert end.sent == Script(l) + [l.unlock];
    assert end.sent[..end.ran] == end.sent;
    LockTable(l);
    EffectOfNext(Script(l), l.unlock);
  }

  lemma DoomedStays(c: Client, d: Client)
    requires Doomed(c) && (Later(c, d) || d == Closed(c))
    ensures Doomed(d)
  {}

  /** A session that was not alive when the unlock was sent never ends cleanly. */
  lemma UnlockDooms(c: Client, unlock: string)
    requires Inv(c) && !c.eof && !Alive(c)
    ensures Doomed(Deliver(c, unlock))
  {}

  lemma DoomedNeverClean(c: Client)
    requires Inv(c) && Doomed(c)
    ensures !Clean(c)
  {}

  /** A clean end after the unlock vouches for every moment before it. */
  lemma CleanVouches(held: Client, written: Client, after: Client, end: Client, unlock: string)
    requires Inv(written) && Inv(end) && !held.eof
    requires Later(held, written) && Later(Deliver(written, unlock), after) && Later(Closed(after), end)
    requires Clean(end)
    ensures Alive(held)
  {
    if !Alive(written) {
      UnlockDooms(written, unlock);
      DoomedStays(Deliver(written, unlock), after);
      DoomedStays(after, Closed(after));
      DoomedStays(Closed(after), end);
      DoomedNeverClean(end);
    }
  }
}
