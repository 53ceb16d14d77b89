/**
 * The conversation loop of the Gemini console command. Each iteration shows the history,
 * reads the user's text and (optionally) a new file selection, pushes the user's turn onto
 * the history, sends the whole history to the model, and pushes the reply only when its
 * finish reason is considered successful. The selected file paths outlive the iteration
 * that chose them: declining the upload prompt sends the previous selection again.
 *
 * Next is one iteration as a pure transition; Replay is a finite run of iterations;
 * Controller holds the same state as mutable fields and performs the iterations in place.
 */
module Conversation {
  import opened Content
  import opened Display

  /**
   * An exception thrown by the remote call. Nothing in the command inspects it: it leaves
   * the command, so the model treats it as opaque and the constructors are only labels.
   */
  datatype Failure = AuthenticationError | TimeoutError | TransportError | ProtocolError

  /**
   * What the platform does with a request: it answers with content whose finish reason
   * is or is not considered successful, or it raises.
   */
  datatype Reply = Reply(success: bool, content: Turn) | Raised(failure: Failure)

  /** What one iteration receives from outside the command. */
  datatype Input = Input(
    text: string,                 // what was typed at the "You: " prompt
    upload: Option<seq<string>>,  // None: upload declined; Some(paths): the files picked
    read: string -> Attachment,   // MIME type and base64 contents of a file during this iteration
    generate: Request -> Reply)   // the remote platform

  /** How an iteration ended. */
  datatype Event = Committed | Rejected | Aborted(failure: Failure)

  /** What an iteration showed and sent, and how it ended. */
  datatype Exchange = Exchange(shown: seq<Row>, request: Request, event: Event)

  /** The state the loop carries from one iteration to the next. */
  datatype State = State(history: seq<Turn>, lastFiles: seq<string>)

  /** The state when the command starts: no history, no file selected yet. */
  const Initial: State := State([], [])

  /** The paths attached in an iteration: the new selection, or else the one from before. */
  function Selection(lastFiles: seq<string>, upload: Option<seq<string>>): (paths: seq<string>)
    ensures upload.Some? ==> paths == upload.value
    ensures upload.None? ==> paths == lastFiles
  {
    match upload
    case Some(paths) => paths
    case None => lastFiles
  }

  /** The files at the given paths, read in path order. */
  function ReadAll(paths: seq<string>, read: string -> Attachment): (files: seq<Attachment>)
    ensures |files| == |paths|
    ensures forall i {:trigger files[i]} :: 0 <= i < |paths| ==> files[i] == read(paths[i])
  {
    if paths == [] then [] else [read(paths[0])] + ReadAll(paths[1..], read)
  }

  /** The state after an iteration and what the iteration showed and sent. */
  datatype Transition = Transition(next: State, exchange: Exchange)

  /**
   * One iteration of the loop. Every request goes to the fixed model with the fixed safety
   * settings; the user's turn is kept whatever the platform answers, and a successful
   * reply is kept after it.
   */
  function Next(s: State, input: Input): (r: Transition)
    ensures r.exchange.request.model == ModelId
    ensures r.exchange.request.safetySettings == SafetyPolicy
    ensures |r.next.history| == |s.history| + (if r.exchange.event == Committed then 2 else 1)
    ensures r.next.history[..|s.history|] == s.history
  {
    var shown := DisplayTable(s.history);
    var files := Selection(s.lastFiles, input.upload);
    var pushed := s.history + [UserTurn(input.text, ReadAll(files, input.read))];
    var request := BuildRequest(pushed);
    match input.generate(request)
    case Raised(f) => Transition(State(pushed, files), Exchange(shown, request, Aborted(f)))
    case Reply(ok, content) =>
      if ok then Transition(State(pushed + [content], files), Exchange(shown, request, Committed))
      else Transition(State(pushed, files), Exchange(shown, request, Rejected))
  }

  /** a is a prefix of b. */
  predicate IsPrefix(a: seq<Turn>, b: seq<Turn>)
  {
    |a| <= |b| && b[..|a|] == a
  }

  /**
   * The request of an iteration names the fixed model, carries the fixed safety settings,
   * and holds the history from before the iteration followed by exactly one new user turn:
   * role User, the typed text, then one blob per attached file in selection order. The
   * table shown first is the history from before the iteration.
   */
  lemma StepRequest(s: State, input: Input)
    ensures var x := Next(s, input).exchange;
      var files := ReadAll(Selection(s.lastFiles, input.upload), input.read);
      && x.request.model == ModelId
      && x.request.safetySettings == SafetyPolicy
      && x.request.contents == s.history + [UserTurn(input.text, files)]
      && x.shown == DisplayTable(s.history)
  {
  }

  /**
   * Accepting the upload prompt replaces the remembered selection; declining it keeps
   * the remembered selection, which is then attached again.
   */
  lemma StepFiles(s: State, input: Input)
    ensures var r := Next(s, input);
      && (input.upload.Some? ==> r.next.lastFiles == input.upload.value)
      && (input.upload.None? ==> r.next.lastFiles == s.lastFiles)
      && |r.exchange.request.contents| == |s.history| + 1
      && r.exchange.request.contents[|s.history|]
           == UserTurn(input.text, ReadAll(r.next.lastFiles, input.read))
  {
  }

  /**
   * The history only grows at its end, and the user's turn stays in it whatever the
   * platform answers. A successful reply is pushed after it (growth by two, the reply
   * last); an unsuccessful one is dropped (growth by one); an exception ends the command
   * with the user's turn already pushed.
   */
  lemma StepHistory(s: State, input: Input)
    ensures var r := Next(s, input);
      var t, x := r.next, r.exchange;
      var reply := input.generate(x.request);
      && IsPrefix(x.request.contents, t.history)
      && IsPrefix(s.history, t.history)
      && (x.event == Committed <==> reply.Reply? && reply.success)
      && (x.event == Rejected <==> reply.Reply? && !reply.success)
      && (reply.Raised? ==> x.event == Aborted(reply.failure))
      && (x.event.Aborted? ==> reply.Raised?)
      && |t.history| == |s.history| + (if x.event == Committed then 2 else 1)
      && (x.event == Committed ==> t.history[|t.history| - 1] == reply.content)
  {
  }

  /** The final state of a finite run and the exchanges of the iterations that ran. */
  datatype Trace = Trace(final: State, exchanges: seq<Exchange>)

  /**
   * A finite run of iterations from state s. A raised failure ends the run; later
   * inputs are never read.
   */
  function Replay(s: State, inputs: seq<Input>): (t: Trace)
    ensures |t.exchanges| <= |inputs|
    ensures inputs != [] ==> t.exchanges != []
    ensures |s.history| + |t.exchanges| <= |t.final.history|
    decreases |inputs|
  {
    if inputs == [] then Trace(s, [])
    else
      var r := Next(s, inputs[0]);
      if r.exchange.event.Aborted? then Trace(r.next, [r.exchange])
      else
        var rest := Replay(r.next, inputs[1..]);
        Trace(rest.final, [r.exchange] + rest.exchanges)
  }

  /** A run whose first iteration was not aborted goes on with the remaining inputs. */
  lemma ReplayRest(s: State, inputs: seq<Input>)
    requires inputs != [] && !Next(s, inputs[0]).exchange.event.Aborted?
    ensures var r := Next(s, inputs[0]);
      var rest := Replay(r.next, inputs[1..]);
      && Replay(s, inputs).final == rest.final
      && Replay(s, inputs).exchanges == [r.exchange] + rest.exchanges
  {
  }

  /** How a run continues after an iteration that went from state s to state t with exchange x. */
  lemma ReplayStep(s: State, inputs: seq<Input>, t: State, x: Exchange)
    requires inputs != [] && Next(s, inputs[0]) == Transition(t, x)
    ensures x.event.Aborted? ==> Replay(s, inputs) == Trace(t, [x])
    ensures !x.event.Aborted? ==>
      && Replay(s, inputs).final == Replay(t, inputs[1..]).final
      && Replay(s, inputs).exchanges == [x] + Replay(t, inputs[1..]).exchanges
  {
  }

  /** The number of exchanges whose reply was committed. */
  function Commits(xs: seq<Exchange>): nat
  {
    if xs == [] then 0 else (if xs[0].event == Committed then 1 else 0) + Commits(xs[1..])
  }

  /**
   * A run reads its inputs in order and stops exactly at the first raised failure:
   * one exchange per input up to and including that one, and none of the earlier
   * exchanges was aborted. The history grows by two per committed exchange and by
   * one per other exchange.
   */
  lemma {:induction false} ReplayShape(s: State, inputs: seq<Input>)
    ensures var run := Replay(s, inputs);
      var xs := run.exchanges;
      && |xs| <= |inputs|
      && (inputs != [] ==> xs != [])
      && (forall k :: 0 <= k < |xs| - 1 ==> !xs[k].event.Aborted?)
      && (|xs| < |inputs| ==> xs[|xs| - 1].event.Aborted?)
      && |run.final.history| == |s.history| + |xs| + Commits(xs)
    decreases |inputs|
  {
    if inputs != [] {
      var r := Next(s, inputs[0]);
      StepHistory(s, inputs[0]);
      if !r.exchange.event.Aborted? {
        ReplayShape(r.next, inputs[1..]);
        ReplayRest(s, inputs);
        var xs := Replay(r.next, inputs[1..]).exchanges;
        assert ([r.exchange] + xs)[1..] == xs;
        forall k | 0 < k < |xs| ensures ([r.exchange] + xs)[k] == xs[k - 1] { }
      }
    }
  }

  /**
   * The history is append-only across a run: the starting history, and the contents of
   * every request the run sent, are prefixes of the final history.
   */
  lemma {:induction false} ReplayAppendOnly(s: State, inputs: seq<Input>)
    ensures var run := Replay(s, inputs);
      && IsPrefix(s.history, run.final.history)
      && forall k :: 0 <= k < |run.exchanges| ==>
           IsPrefix(run.exchanges[k].request.contents, run.final.history)
    decreases |inputs|
  {
    if inputs != [] {
      var r := Next(s, inputs[0]);
      StepHistory(s, inputs[0]);
      if !r.exchange.event.Aborted? {
        ReplayAppendOnly(r.next, inputs[1..]);
        ReplayRest(s, inputs);
        var rest := Replay(r.next, inputs[1..]);
        var u := rest.final.history;
        PrefixTransitive(s.history, r.next.history, u);
        PrefixTransitive(r.exchange.request.contents, r.next.history, u);
        var xs := [r.exchange] + rest.exchanges;
        forall k | 0 <= k < |xs| ensures IsPrefix(xs[k].request.contents, u) {
          if k > 0 { assert xs[k] == rest.exchanges[k - 1]; }
        }
      }
    }
  }

  lemma PrefixTransitive(a: seq<Turn>, b: seq<Turn>, c: seq<Turn>)
    requires IsPrefix(a, b) && IsPrefix(b, c)
    ensures IsPrefix(a, c)
  {
    assert c[..|a|] == c[..|b|][..|a|];
  }

  /** Every request of a run names the fixed model and carries the fixed safety settings. */
  lemma {:induction false} ReplayFixedSettings(s: State, inputs: seq<Input>)
    ensures var xs := Replay(s, inputs).exchanges;
      forall k :: 0 <= k < |xs| ==>
        xs[k].request.model == ModelId && xs[k].request.safetySettings == SafetyPolicy
    decreases |inputs|
  {
    if inputs != [] {
      var r := Next(s, inputs[0]);
      StepRequest(s, inputs[0]);
      if !r.exchange.event.Aborted? {
        ReplayFixedSettings(r.next, inputs[1..]);
        ReplayRest(s, inputs);
        var rest := Replay(r.next, inputs[1..]).exchanges;
        var xs := [r.exchange] + rest;
        forall k | 0 <= k < |xs|
          ensures xs[k].request.model == ModelId && xs[k].request.safetySettings == SafetyPolicy
        {
          if k > 0 { assert xs[k] == rest[k - 1]; }
        }
      }
    }
  }

  /** The first exchange of a run is that of its first iteration. */
  lemma ReplayHead(s: State, inputs: seq<Input>)
    requires 0 < |Replay(s, inputs).exchanges|
    ensures inputs != [] && Replay(s, inputs).exchanges[0] == Next(s, inputs[0]).exchange
  {
  }

  /** Exchange k > 0 of a run is exchange k - 1 of the run that starts after the first iteration. */
  lemma ReplayTail(s: State, inputs: seq<Input>, k: nat)
    requires 0 < k < |Replay(s, inputs).exchanges|
    ensures inputs != [] && !Next(s, inputs[0]).exchange.event.Aborted?
    ensures var rest := Replay(Next(s, inputs[0]).next, inputs[1..]).exchanges;
      k - 1 < |rest| && Replay(s, inputs).exchanges[k] == rest[k - 1]
  {
    ReplayRest(s, inputs);
  }

  /**
   * Exchange k of a run is the outcome of input k: committed exactly when the platform
   * answered successfully, rejected exactly when it answered unsuccessfully, aborted
   * exactly when it raised.
   */
  lemma {:induction false} ReplayEvents(s: State, inputs: seq<Input>, k: nat)
    requires k < |Replay(s, inputs).exchanges|
    ensures var x := Replay(s, inputs).exchanges[k];
      var reply := inputs[k].generate(x.request);
      && (x.event == Committed <==> reply.Reply? && reply.success)
      && (x.event == Rejected <==> reply.Reply? && !reply.success)
      && (x.event.Aborted? <==> reply.Raised?)
    decreases k
  {
    if k == 0 {
      StepHistory(s, inputs[0]);
      ReplayHead(s, inputs);
    } else {
      ReplayTail(s, inputs, k);
      assert inputs[1..][k - 1] == inputs[k];
      ReplayEvents(Next(s, inputs[0]).next, inputs[1..], k - 1);
    }
  }

  /** The user turn an exchange sent: the last turn of its request. */
  function SentTurn(x: Exchange): Turn
    requires |x.request.contents| > 0
  {
    x.request.contents[|x.request.contents| - 1]
  }

  /** The remembered selection after an iteration. */
  lemma NextLastFiles(s: State, input: Input)
    ensures Next(s, input).next.lastFiles == Selection(s.lastFiles, input.upload)
  {
  }

  /** The selection in force during iteration k, folding the upload answers from the front. */
  function FilesAt(init: seq<string>, inputs: seq<Input>, k: nat): seq<string>
    requires k < |inputs|
    decreases k
  {
    var files := Selection(init, inputs[0].upload);
    if k == 0 then files else FilesAt(files, inputs[1..], k - 1)
  }

  /** Iteration k of a run sends the typed text and the files of the selection in force. */
  lemma {:induction false} ReplaySendsFilesAt(s: State, inputs: seq<Input>, k: nat)
    requires k < |Replay(s, inputs).exchanges|
    ensures var x := Replay(s, inputs).exchanges[k];
      && |x.request.contents| > 0
      && SentTurn(x) == UserTurn(inputs[k].text, ReadAll(FilesAt(s.lastFiles, inputs, k), inputs[k].read))
    decreases k
  {
    if k == 0 {
      StepFiles(s, inputs[0]);
      ReplayHead(s, inputs);
    } else {
      NextLastFiles(s, inputs[0]);
      ReplayTail(s, inputs, k);
      assert inputs[1..][k - 1] == inputs[k];
      ReplaySendsFilesAt(Next(s, inputs[0]).next, inputs[1..], k - 1);
    }
  }

  /**
   * The selection in force during iteration k is that of the latest iteration j <= k that
   * accepted the upload prompt, or the initial one when none up to k did (j = -1).
   */
  lemma {:induction false} FilesAtLatest(init: seq<string>, inputs: seq<Input>, k: nat, j: int)
    requires k < |inputs|
    requires -1 <= j <= k
    requires 0 <= j ==> inputs[j].upload.Some?
    requires forall m :: j < m <= k ==> inputs[m].upload.None?
    ensures FilesAt(init, inputs, k) == if j < 0 then init else inputs[j].upload.value
    decreases k
  {
    if k > 0 {
      var rest := inputs[1..];
      forall m | -1 <= j - 1 < m <= k - 1 ensures rest[m].upload.None? {
        assert rest[m] == inputs[m + 1];
      }
      if j <= 0 {
        FilesAtLatest(Selection(init, inputs[0].upload), rest, k - 1, -1);
      } else {
        assert rest[j - 1] == inputs[j];
        FilesAtLatest(Selection(init, inputs[0].upload), rest, k - 1, j - 1);
      }
    }
  }

  /**
   * The files attached in iteration k of a run are those of the latest iteration j <= k
   * that accepted the upload prompt (re-read during iteration k), or those remembered at
   * the start of the run when no iteration up to k accepted it (j = -1).
   */
  lemma ReplayStickyFiles(s: State, inputs: seq<Input>, k: nat, j: int)
    requires k < |Replay(s, inputs).exchanges|
    requires -1 <= j <= k
    requires 0 <= j ==> inputs[j].upload.Some?
    requires forall m :: j < m <= k ==> inputs[m].upload.None?
    ensures var x := Replay(s, inputs).exchanges[k];
      var latest := if j < 0 then s.lastFiles else inputs[j].upload.value;
      |x.request.contents| > 0 && SentTurn(x) == UserTurn(inputs[k].text, ReadAll(latest, inputs[k].read))
  {
    ReplaySendsFilesAt(s, inputs, k);
    FilesAtLatest(s.lastFiles, inputs, k, j);
  }

  /** A successful first exchange leaves the user's turn and the reply in the history. */
  lemma ScenarioCommitted(read: string -> Attachment)
    ensures var reply := Turn(Model, [TextPart("Hi there")]);
      var input := Input("Hello", None, read, (_: Request) => Reply(true, reply));
      var r := Next(Initial, input);
      && r.next.history == [Turn(User, [TextPart("Hello")]), reply]
      && r.exchange.event == Committed
      && DisplayTable(r.next.history) == [Row("user", "Hello"), Row("model", "Hi there")]
  {
    var reply := Turn(Model, [TextPart("Hi there")]);
    var input := Input("Hello", None, read, (_: Request) => Reply(true, reply));
    assert ReadAll([], read) == [];
    assert UserTurn("Hello", []) == Turn(User, [TextPart("Hello")]);
    DisplayUserTurn("Hello", []);
    assert DisplayRow(reply) == Row("model", "Hi there");
    DisplayTableAppend([Turn(User, [TextPart("Hello")])], [reply]);
  }

  /** A rejected first exchange still leaves the user's turn in the history, and nothing else. */
  lemma ScenarioRejected(read: string -> Attachment, content: Turn)
    ensures var input := Input("bad prompt", None, read, (_: Request) => Reply(false, content));
      var r := Next(Initial, input);
      && r.next.history == [Turn(User, [TextPart("bad prompt")])]
      && r.exchange.event == Rejected
  {
    assert ReadAll([], read) == [];
    assert UserTurn("bad prompt", []) == Turn(User, [TextPart("bad prompt")]);
  }

  /** The command's loop state, updated in place from one iteration to the next. */
  class Controller {
    var history: seq<Turn>
    var lastFiles: seq<string>

    constructor ()
      ensures history == [] && lastFiles == []
      ensures Snapshot() == Initial
    {
      history := [];
      lastFiles := [];
    }

    function Snapshot(): State
      reads this
    {
      State(history, lastFiles)
    }

    /** One iteration: the history and the remembered selection change as Next says. */
    method Step(input: Input) returns (x: Exchange)
      modifies this
      ensures Next(old(Snapshot()), input) == Transition(Snapshot(), x)
    {
      var shown := DisplayTable(history);
      if input.upload.Some? {
        lastFiles := input.upload.value;
      }
      var turn := UserTurn(input.text, ReadAll(lastFiles, input.read));
      history := history + [turn];
      var request := BuildRequest(history);
      var reply := input.generate(request);
      match reply {
        case Raised(f) =>
          x := Exchange(shown, request, Aborted(f));
        case Reply(ok, content) =>
          if !ok {
            x := Exchange(shown, request, Rejected);
          } else {
            history := history + [content];
            x := Exchange(shown, request, Committed);
          }
      }
    }

    /** Iterations over the given inputs, until they run out or the platform raises. */
    method Run(inputs: seq<Input>) returns (xs: seq<Exchange>)
      modifies this
      ensures Replay(old(Snapshot()), inputs) == Trace(Snapshot(), xs)
    {
      ghost var start := Snapshot();
      xs := [];
      var k := 0;
      var stopped := false;
      assert inputs[k..] == inputs;
      assert Replay(start, inputs).exchanges == xs + Replay(start, inputs).exchanges;
      while k < |inputs| && !stopped
        invariant 0 <= k <= |inputs|
        invariant stopped ==> Replay(start, inputs) == Trace(Snapshot(), xs)
        invariant !stopped ==>
          && Replay(start, inputs).final == Replay(Snapshot(), inputs[k..]).final
          && Replay(start, inputs).exchanges == xs + Replay(Snapshot(), inputs[k..]).exchanges
      {
        ghost var before := Snapshot();
        var x := Step(inputs[k]);
        ReplayStep(before, inputs[k..], Snapshot(), x);
        assert inputs[k..][1..] == inputs[k + 1..];
        if !x.event.Aborted? {
          assert xs + ([x] + Replay(Snapshot(), inputs[k + 1..]).exchanges)
              == (xs + [x]) + Replay(Snapshot(), inputs[k + 1..]).exchanges;
        }
        xs := xs + [x];
        stopped := x.event.Aborted?;
        k := k + 1;
      }
      if !stopped {
        assert inputs[k..] == [];
        assert xs + [] == xs;
      }
    }
  }
}
