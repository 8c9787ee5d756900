/** The computer-use driver: each turn the planning oracle's output is
    inspected; the first computer call is executed on the browser page and a
    fresh screenshot is sent back, until the oracle answers without a call.
    Also the browser-session helpers that run such a loop for a fixed goal,
    and the document id and URL derived by the document-creation helper. */
module ComputerUse {
  import opened Wrappers
  import opened Text
  import opened Guidelines

  // ---------------------------------------------------------------------------
  // The page and its event log
  // ---------------------------------------------------------------------------

  /** What the page is asked to do, in the order it is asked. */
  datatype Event =
    | MouseClick(x: Option<int>, y: Option<int>)
    | KeyboardType(text: Option<string>)
    | KeyPress(key: string)
    | MouseMove(x: Option<int>, y: Option<int>)
    | ScrollBy(dx: int, dy: int)
    | Sleep(seconds: nat)
    | WaitForLoadState(state: string, timeoutMs: nat)
    | Screenshot

  /** A screenshot, identified by the position of its `Screenshot` event in
      the page's log (the image itself is outside the model). */
  datatype Frame = Frame(position: nat)

  const IdleState := "networkidle"
  const IdleTimeoutMs: nat := 5000
  const WaitSeconds: nat := 2

  /** The browser page: every input it receives is appended to `log`. */
  class Surface {
    var log: seq<Event>

    constructor ()
      ensures log == []
    {
      log := [];
    }

    method Emit(e: Event)
      modifies this
      ensures log == old(log) + [e]
    {
      log := log + [e];
    }

    /** `take_screenshot(page)`. */
    method TakeScreenshot() returns (frame: Frame)
      modifies this
      ensures log == old(log) + [Screenshot]
      ensures frame == Frame(|old(log)|)
    {
      frame := Frame(|log|);
      log := log + [Screenshot];
    }
  }

  // ---------------------------------------------------------------------------
  // execute_computer_action
  // ---------------------------------------------------------------------------

  /** The action record of a computer call; any field may be missing. */
  datatype Action = Action(
    kind: Option<string>,
    x: Option<int>,
    y: Option<int>,
    text: Option<string>,
    keys: Option<seq<string>>,
    scrollX: Option<int>,
    scrollY: Option<int>)

  function KeyPresses(keys: seq<string>): seq<Event>
    decreases |keys|
  {
    if keys == [] then [] else KeyPresses(keys[..|keys| - 1]) + [KeyPress(keys[|keys| - 1])]
  }

  function OrZero(v: Option<int>): int
  {
    if v.Some? then v.value else 0
  }

  /** The inputs an action sends to the page, by its type. */
  function Dispatch(a: Action): seq<Event>
  {
    if a.kind == Some("click") then [MouseClick(a.x, a.y)]
    else if a.kind == Some("type") then [KeyboardType(a.text)]
    else if a.kind == Some("keypress") then KeyPresses(if a.keys.Some? then a.keys.value else [])
    else if a.kind == Some("scroll") then [MouseMove(a.x, a.y), ScrollBy(OrZero(a.scrollX), OrZero(a.scrollY))]
    else if a.kind == Some("wait") then [Sleep(WaitSeconds)]
    else []
  }

  /** Everything one executed action adds to the log: its inputs, the wait for
      the network to go idle, and the screenshot. */
  function TurnEvents(a: Action): seq<Event>
  {
    Dispatch(a) + [WaitForLoadState(IdleState, IdleTimeoutMs), Screenshot]
  }

  /** `execute_computer_action`. */
  method ExecuteComputerAction(page: Surface, action: Action) returns (frame: Frame)
    modifies page
    ensures page.log == old(page.log) + TurnEvents(action)
    ensures frame == Frame(|page.log| - 1)
  {
    if action.kind == Some("click") {
      page.Emit(MouseClick(action.x, action.y));
    } else if action.kind == Some("type") {
      page.Emit(KeyboardType(action.text));
    } else if action.kind == Some("keypress") {
      var keys := if action.keys.Some? then action.keys.value else [];
      for i := 0 to |keys|
        invariant page.log == old(page.log) + KeyPresses(keys[..i])
      {
        assert keys[..i + 1][..i] == keys[..i];
        page.Emit(KeyPress(keys[i]));
      }
      assert keys[..|keys|] == keys;
    } else if action.kind == Some("scroll") {
      page.Emit(MouseMove(action.x, action.y));
      page.Emit(ScrollBy(OrZero(action.scrollX), OrZero(action.scrollY)));
    } else if action.kind == Some("wait") {
      page.Emit(Sleep(WaitSeconds));
    }
    page.Emit(WaitForLoadState(IdleState, IdleTimeoutMs));
    frame := page.TakeScreenshot();
  }

  /** Every executed action ends with a screenshot. */
  lemma TurnEndsWithScreenshot(a: Action)
    ensures |TurnEvents(a)| >= 2 && TurnEvents(a)[|TurnEvents(a)| - 1] == Screenshot
  {
  }

  /** A key-press action presses its keys one by one, in list order. */
  lemma {:induction false} KeyPressesInOrder(keys: seq<string>)
    ensures |KeyPresses(keys)| == |keys|
    ensures forall i :: 0 <= i < |keys| ==> KeyPresses(keys)[i] == KeyPress(keys[i])
    decreases |keys|
  {
    if keys != [] {
      KeyPressesInOrder(keys[..|keys| - 1]);
    }
  }

  /** The shape of the inputs for each kind of action: a key-press action
      presses its keys in order (none when the list is missing), a scroll
      moves the pointer before scrolling, with missing deltas read as 0, and
      an action of any other type sends nothing, although the idle wait and
      the screenshot still follow. */
  lemma DispatchShapes(a: Action)
    ensures a.kind == Some("keypress") ==>
      var keys := if a.keys.Some? then a.keys.value else [];
      |Dispatch(a)| == |keys| && forall i :: 0 <= i < |keys| ==> Dispatch(a)[i] == KeyPress(keys[i])
    ensures a.kind == Some("scroll") ==>
      Dispatch(a) == [MouseMove(a.x, a.y), ScrollBy(if a.scrollX.Some? then a.scrollX.value else 0,
                                                      if a.scrollY.Some? then a.scrollY.value else 0)]
    ensures a.kind !in {Some("click"), Some("type"), Some("keypress"), Some("scroll"), Some("wait")} ==>
      Dispatch(a) == [] && TurnEvents(a) == [WaitForLoadState(IdleState, IdleTimeoutMs), Screenshot]
    ensures |TurnEvents(a)| >= 2 && TurnEvents(a)[|TurnEvents(a)| - 1] == Screenshot
  {
    if a.kind == Some("keypress") {
      KeyPressesInOrder(if a.keys.Some? then a.keys.value else []);
    }
  }

  // ---------------------------------------------------------------------------
  // One turn of computer_use_loop
  // ---------------------------------------------------------------------------

  /** An item of the oracle's output list, by its `type`: a computer call, a
      message, which carries the texts of its content parts, or an item of
      any other type, which the loop never inspects. */
  datatype OutputItem =
    | ComputerCall(callId: string, action: Action)
    | Message(texts: seq<string>)
    | OtherItem

  datatype Response = Response(id: string, output: seq<OutputItem>)

  /** What is sent to the oracle: the goal with the first screenshot, then the
      executed call's id and the new screenshot, chained to the previous
      response. */
  datatype Request =
    | InitialRequest(goal: string, frame: Frame)
    | FollowUpRequest(previousResponseId: string, callId: string, frame: Frame)

  /** How the loop ends: it returns a status and a message; it fails when the
      first message has no content part; or the oracle gives no further
      response. */
  datatype LoopResult =
    | Returned(status: string, message: string)
    | MessageWithoutContent
    | OracleExhausted

  datatype Decision = Finish(result: LoopResult) | Act(callId: string, action: Action)

  const CompletedStatus := "completed"
  const DefaultCompletionMessage := "Task completed successfully"

  /** The `type` of an output item, as far as the loop tells them apart. */
  datatype ItemType = CallType | MessageType | OtherType

  function TypeOf(item: OutputItem): ItemType
  {
    match item
    case ComputerCall(_, _) => CallType
    case Message(_) => MessageType
    case OtherItem => OtherType
  }

  /** `[item for item in output if item.type == t]`. */
  function Filter(output: seq<OutputItem>, t: ItemType): (r: seq<OutputItem>)
    ensures forall i :: 0 <= i < |r| ==> TypeOf(r[i]) == t
    decreases |output|
  {
    if output == [] then []
    else (if TypeOf(output[0]) == t then [output[0]] else []) + Filter(output[1..], t)
  }

  /** The filter is empty exactly when nothing matches, and otherwise starts
      with the first match. */
  lemma {:induction false} FilterFirst(output: seq<OutputItem>, t: ItemType)
    ensures Filter(output, t) == [] <==> forall i :: 0 <= i < |output| ==> TypeOf(output[i]) != t
    ensures Filter(output, t) != [] ==>
      exists i :: 0 <= i < |output| && output[i] == Filter(output, t)[0]
        && forall j :: 0 <= j < i ==> TypeOf(output[j]) != t
    decreases |output|
  {
    if output != [] {
      FilterFirst(output[1..], t);
      if TypeOf(output[0]) != t && Filter(output[1..], t) != [] {
        var i :| 0 <= i < |output[1..]| && output[1..][i] == Filter(output[1..], t)[0]
          && forall j :: 0 <= j < i ==> TypeOf(output[1..][j]) != t;
        assert output[i + 1] == Filter(output, t)[0];
        forall j | 0 <= j < i + 1 ensures TypeOf(output[j]) != t {
          if j > 0 { assert output[j] == output[1..][j - 1]; }
        }
      }
      if Filter(output, t) == [] {
        forall i | 0 <= i < |output| ensures TypeOf(output[i]) != t {
          if i > 0 { assert output[i] == output[1..][i - 1]; }
        }
      }
    }
  }

  /** The decision of one turn: act on the first computer call, or finish with
      the first message's first text, or with the default message. */
  function DecideTurn(output: seq<OutputItem>): Decision
  {
    var calls := Filter(output, CallType);
    if calls == [] then
      var messages := Filter(output, MessageType);
      if messages == [] then Finish(Returned(CompletedStatus, DefaultCompletionMessage))
      else if messages[0].texts == [] then Finish(MessageWithoutContent)
      else Finish(Returned(CompletedStatus, messages[0].texts[0]))
    else
      Act(calls[0].callId, calls[0].action)
  }

  /** A turn acts exactly when the output holds a computer call, and then on
      the first one; without a call it finishes with the text of the first
      message, or with the default message when there is none. */
  lemma TurnDecision(output: seq<OutputItem>)
    ensures DecideTurn(output).Act? <==> exists i :: 0 <= i < |output| && output[i].ComputerCall?
    ensures DecideTurn(output).Act? ==>
      exists i :: 0 <= i < |output|
        && output[i] == ComputerCall(DecideTurn(output).callId, DecideTurn(output).action)
        && forall j :: 0 <= j < i ==> !output[j].ComputerCall?
    ensures (forall i :: 0 <= i < |output| ==> !output[i].ComputerCall? && !output[i].Message?) ==>
      DecideTurn(output) == Finish(Returned(CompletedStatus, DefaultCompletionMessage))
    ensures (forall i :: 0 <= i < |output| ==> !output[i].ComputerCall?) && (exists i :: 0 <= i < |output| && output[i].Message?) ==>
      exists i :: 0 <= i < |output| && output[i].Message?
        && (forall j :: 0 <= j < i ==> !output[j].Message?)
        && DecideTurn(output) == Finish(if output[i].texts == [] then MessageWithoutContent
                                        else Returned(CompletedStatus, output[i].texts[0]))
  {
    FilterFirst(output, CallType);
    FilterFirst(output, MessageType);
  }

  // ---------------------------------------------------------------------------
  // computer_use_loop
  // ---------------------------------------------------------------------------

  /** The page's log, the requests sent and the outcome at the end of a run. */
  datatype Run = Run(log: seq<Event>, requests: seq<Request>, result: LoopResult)

  /** A page whose every executed action ends with a screenshot, as
      `TurnEvents` does. */
  ghost predicate ClosesWithScreenshot(execute: Action -> seq<Event>)
  {
    forall a :: |execute(a)| > 0 && execute(a)[|execute(a)| - 1] == Screenshot
  }

  lemma TurnEventsCloseWithScreenshot()
    ensures ClosesWithScreenshot(TurnEvents)
  {
    forall a {
      TurnEndsWithScreenshot(a);
    }
  }

  /** The loop from turn `k` on, with `execute` the events executing an
      action adds to the page's log (`TurnEvents` for the real page), the
      oracle's responses given in order, the log so far and the requests sent
      so far: an acting turn executes its call, sends the call id with the
      screenshot just taken, chained to the current response, and continues
      with the next response. */
  function RunFrom(execute: Action -> seq<Event>, responses: seq<Response>, k: nat, log: seq<Event>, sent: seq<Request>): Run
    requires ClosesWithScreenshot(execute)
    decreases |responses| - k, 1
  {
    if k >= |responses| then Run(log, sent, OracleExhausted)
    else
      match DecideTurn(responses[k].output)
      case Finish(result) => Run(log, sent, result)
      case Act(callId, action) => ActAndContinue(execute, responses, k, log, sent, callId, action)
  }

  /** An acting turn `k`: the call is executed, its id is sent with the
      screenshot that closed it, and the run goes on with the next response. */
  function ActAndContinue(execute: Action -> seq<Event>, responses: seq<Response>, k: nat, log: seq<Event>,
                          sent: seq<Request>, callId: string, action: Action): Run
    requires ClosesWithScreenshot(execute)
    requires k < |responses|
    decreases |responses| - k, 0
  {
    var next := log + execute(action);
    RunFrom(execute, responses, k + 1, next, sent + [FollowUpRequest(responses[k].id, callId, Frame(|next| - 1))])
  }

  lemma RunFromActs(execute: Action -> seq<Event>, responses: seq<Response>, k: nat, log: seq<Event>, sent: seq<Request>)
    requires ClosesWithScreenshot(execute)
    requires k < |responses| && DecideTurn(responses[k].output).Act?
    ensures var d := DecideTurn(responses[k].output);
      var next := log + execute(d.action);
      RunFrom(execute, responses, k, log, sent) ==
        RunFrom(execute, responses, k + 1, next, sent + [FollowUpRequest(responses[k].id, d.callId, Frame(|next| - 1))])
  {
    var d := DecideTurn(responses[k].output);
    assert RunFrom(execute, responses, k, log, sent) == ActAndContinue(execute, responses, k, log, sent, d.callId, d.action);
  }

  /** A run that has no more responses, or whose turn finishes, ends where it is. */
  lemma RunFromStops(execute: Action -> seq<Event>, responses: seq<Response>, k: nat, log: seq<Event>, sent: seq<Request>)
    requires ClosesWithScreenshot(execute)
    requires k >= |responses| || DecideTurn(responses[k].output).Finish?
    ensures RunFrom(execute, responses, k, log, sent).log == log
    ensures RunFrom(execute, responses, k, log, sent).requests == sent
    ensures RunFrom(execute, responses, k, log, sent).result ==
      if k >= |responses| then OracleExhausted else DecideTurn(responses[k].output).result
  {
  }

  /** What an acting turn leaves in the finished run: its follow-up request,
      right after the requests sent before it, and the screenshot that closed
      the turn, at the position that request names. */
  lemma ActingTurnRecord(execute: Action -> seq<Event>, responses: seq<Response>, k: nat, log: seq<Event>, sent: seq<Request>)
    requires ClosesWithScreenshot(execute)
    requires k < |responses| && DecideTurn(responses[k].output).Act?
    ensures var d := DecideTurn(responses[k].output);
      var next := log + execute(d.action);
      var r := RunFrom(execute, responses, k, log, sent);
      && |sent| < |r.requests| && |log| < |next| <= |r.log|
      && r.requests[|sent|] == FollowUpRequest(responses[k].id, d.callId, Frame(|next| - 1))
      && r.log[|next| - 1] == Screenshot
  {
    var d := DecideTurn(responses[k].output);
    var turn := execute(d.action);
    var next := log + turn;
    var sent' := sent + [FollowUpRequest(responses[k].id, d.callId, Frame(|next| - 1))];
    RunFromActs(execute, responses, k, log, sent);
    var r := RunFrom(execute, responses, k + 1, next, sent');
    RunExtends(execute, responses, k + 1, next, sent');
    assert r.requests[|sent|] == r.requests[..|sent'|][|sent|] == sent'[|sent|];
    assert next[|next| - 1] == turn[|turn| - 1];
    assert r.log[|next| - 1] == r.log[..|next|][|next| - 1];
  }

  /** An acting turn of the real page, in the loop's own terms. */
  lemma LoopStep(responses: seq<Response>, k: nat, log: seq<Event>, sent: seq<Request>,
                 callId: string, action: Action)
    requires k < |responses| && DecideTurn(responses[k].output) == Act(callId, action)
    ensures ClosesWithScreenshot(TurnEvents)
      && var next := log + TurnEvents(action);
      RunFrom(TurnEvents, responses, k, log, sent) ==
        RunFrom(TurnEvents, responses, k + 1, next, sent + [FollowUpRequest(responses[k].id, callId, Frame(|next| - 1))])
  {
    TurnEventsCloseWithScreenshot();
    RunFromActs(TurnEvents, responses, k, log, sent);
  }

  /** The whole loop: one screenshot, the goal sent with it, then the turns. */
  function RunLoop(log: seq<Event>, goal: string, responses: seq<Response>): Run
  {
    TurnEventsCloseWithScreenshot();
    RunFrom(TurnEvents, responses, 0, log + [Screenshot], [InitialRequest(goal, Frame(|log|))])
  }

  /** `computer_use_loop(page, goal)`, with `responses` the oracle's answers to
      the requests in the order they are sent. */
  method ComputerUseLoop(page: Surface, goal: string, responses: seq<Response>)
    returns (result: LoopResult, requests: seq<Request>)
    modifies page
    ensures var r := RunLoop(old(page.log), goal, responses);
      page.log == r.log && requests == r.requests && result == r.result
  {
    TurnEventsCloseWithScreenshot();
    ghost var whole := RunLoop(page.log, goal, responses);
    var screenshot := page.TakeScreenshot();
    requests := [InitialRequest(goal, screenshot)];
    var k := 0;
    while k < |responses|
      invariant 0 <= k <= |responses|
      invariant whole == RunFrom(TurnEvents, responses, k, page.log, requests)
      decreases |responses| - k
    {
      var response := responses[k];
      var computerCalls := Filter(response.output, CallType);
      if computerCalls == [] {
        var finalMessages := Filter(response.output, MessageType);
        if finalMessages == [] {
          result := Returned(CompletedStatus, DefaultCompletionMessage);
        } else if finalMessages[0].texts == [] {
          result := MessageWithoutContent;
        } else {
          result := Returned(CompletedStatus, finalMessages[0].texts[0]);
        }
        assert DecideTurn(response.output) == Finish(result);
        return;
      }
      var computerCall := computerCalls[0];
      assert DecideTurn(response.output) == Act(computerCall.callId, computerCall.action);
      ghost var next := page.log + TurnEvents(computerCall.action);
      ghost var sent := requests + [FollowUpRequest(response.id, computerCall.callId, Frame(|next| - 1))];
      LoopStep(responses, k, page.log, requests, computerCall.callId, computerCall.action);
      screenshot := ExecuteComputerAction(page, computerCall.action);
      requests := requests + [FollowUpRequest(response.id, computerCall.callId, screenshot)];
      assert page.log == next && requests == sent;
      k := k + 1;
    }
    result := OracleExhausted;
  }

  /** The loop never returns a status other than "completed". */
  lemma {:induction false} OnlyCompletedStatus(execute: Action -> seq<Event>, responses: seq<Response>, k: nat, log: seq<Event>, sent: seq<Request>)
    requires ClosesWithScreenshot(execute)
    ensures RunFrom(execute, responses, k, log, sent).result.Returned? ==>
      RunFrom(execute, responses, k, log, sent).result.status == CompletedStatus
    decreases |responses| - k
  {
    if k < |responses| {
      var d := DecideTurn(responses[k].output);
      if d.Act? {
        var next := log + execute(d.action);
        OnlyCompletedStatus(execute, responses, k + 1, next,
                            sent + [FollowUpRequest(responses[k].id, d.callId, Frame(|next| - 1))]);
      }
    }
  }

  /** A run only ever appends: the log and the requests it starts with are
      prefixes of those it ends with, and every request it adds is a follow-up. */
  lemma {:induction false} RunExtends(execute: Action -> seq<Event>, responses: seq<Response>, k: nat, log: seq<Event>, sent: seq<Request>)
    requires ClosesWithScreenshot(execute)
    ensures var r := RunFrom(execute, responses, k, log, sent);
      && |log| <= |r.log| && r.log[..|log|] == log
      && |sent| <= |r.requests| && r.requests[..|sent|] == sent
      && forall i :: |sent| <= i < |r.requests| ==> r.requests[i].FollowUpRequest?
    decreases |responses| - k
  {
    if k < |responses| {
      var d := DecideTurn(responses[k].output);
      if d.Act? {
        var next := log + execute(d.action);
        var sent' := sent + [FollowUpRequest(responses[k].id, d.callId, Frame(|next| - 1))];
        RunExtends(execute, responses, k + 1, next, sent');
        var r := RunFrom(execute, responses, k + 1, next, sent');
        assert r.log[..|log|] == r.log[..|next|][..|log|];
        assert r.requests[..|sent|] == r.requests[..|sent'|][..|sent|];
      }
    }
  }

  /** When the first response holds no computer call, nothing is dispatched,
      the goal is the only request and the loop finishes at once. */
  lemma FinishWithoutActing(log: seq<Event>, goal: string, responses: seq<Response>)
    requires |responses| > 0
    requires forall i :: 0 <= i < |responses[0].output| ==> !responses[0].output[i].ComputerCall?
    ensures RunLoop(log, goal, responses).log == log + [Screenshot]
    ensures RunLoop(log, goal, responses).requests == [InitialRequest(goal, Frame(|log|))]
    ensures RunLoop(log, goal, responses).result != OracleExhausted
  {
    TurnEventsCloseWithScreenshot();
    FilterFirst(responses[0].output, CallType);
  }

  /** The i-th request of a run answers the response of the turn that added
      it: that turn acted, and the request carries the response's id and the
      id of the call it executed. */
  lemma {:induction false} FollowUpCarriesIds(execute: Action -> seq<Event>, responses: seq<Response>, k: nat, log: seq<Event>, sent: seq<Request>, i: nat)
    requires ClosesWithScreenshot(execute)
    requires |sent| <= i < |RunFrom(execute, responses, k, log, sent).requests|
    ensures var r := RunFrom(execute, responses, k, log, sent);
      var turn := k + (i - |sent|);
      && turn < |responses|
      && DecideTurn(responses[turn].output).Act?
      && r.requests[i].FollowUpRequest?
      && r.requests[i].previousResponseId == responses[turn].id
      && r.requests[i].callId == DecideTurn(responses[turn].output).callId
    decreases |responses| - k
  {
    if k >= |responses| || !DecideTurn(responses[k].output).Act? {
      RunFromStops(execute, responses, k, log, sent);
      assert false;
    }
    if i == |sent| {
      ActingTurnRecord(execute, responses, k, log, sent);
    } else {
      var d := DecideTurn(responses[k].output);
      var next := log + execute(d.action);
      var sent' := sent + [FollowUpRequest(responses[k].id, d.callId, Frame(|next| - 1))];
      RunFromActs(execute, responses, k, log, sent);
      assert RunFrom(execute, responses, k, log, sent) == RunFrom(execute, responses, k + 1, next, sent');
      FollowUpCarriesIds(execute, responses, k + 1, next, sent', i);
    }
  }

  /** Every frame a run sends back is the screenshot that closed its turn: it
      points at a `Screenshot` event the run added to the log. */
  lemma {:induction false} FrameIsFreshScreenshot(execute: Action -> seq<Event>, responses: seq<Response>, k: nat, log: seq<Event>, sent: seq<Request>, i: nat)
    requires ClosesWithScreenshot(execute)
    requires |sent| <= i < |RunFrom(execute, responses, k, log, sent).requests|
    ensures var r := RunFrom(execute, responses, k, log, sent);
      && r.requests[i].FollowUpRequest?
      && |log| <= r.requests[i].frame.position < |r.log|
      && r.log[r.requests[i].frame.position] == Screenshot
    decreases |responses| - k
  {
    if k >= |responses| || !DecideTurn(responses[k].output).Act? {
      RunFromStops(execute, responses, k, log, sent);
      assert false;
    }
    if i == |sent| {
      ActingTurnRecord(execute, responses, k, log, sent);
    } else {
      var d := DecideTurn(responses[k].output);
      var next := log + execute(d.action);
      var sent' := sent + [FollowUpRequest(responses[k].id, d.callId, Frame(|next| - 1))];
      RunFromActs(execute, responses, k, log, sent);
      FrameIsFreshScreenshot(execute, responses, k + 1, next, sent', i);
    }
  }

  /** The frames a run sends back come in the order of the log: each follows
      the one sent before it. */
  lemma {:induction false} FramesIncrease(execute: Action -> seq<Event>, responses: seq<Response>, k: nat, log: seq<Event>, sent: seq<Request>, i: nat)
    requires ClosesWithScreenshot(execute)
    requires |sent| < i < |RunFrom(execute, responses, k, log, sent).requests|
    ensures var r := RunFrom(execute, responses, k, log, sent);
      && r.requests[i - 1].FollowUpRequest? && r.requests[i].FollowUpRequest?
      && r.requests[i - 1].frame.position < r.requests[i].frame.position
    decreases |responses| - k
  {
    if k >= |responses| || !DecideTurn(responses[k].output).Act? {
      RunFromStops(execute, responses, k, log, sent);
      assert false;
    }
    var d := DecideTurn(responses[k].output);
    var next := log + execute(d.action);
    var sent' := sent + [FollowUpRequest(responses[k].id, d.callId, Frame(|next| - 1))];
    RunFromActs(execute, responses, k, log, sent);
    if i - 1 == |sent| {
      ActingTurnRecord(execute, responses, k, log, sent);
      FrameIsFreshScreenshot(execute, responses, k + 1, next, sent', i);
    } else {
      FramesIncrease(execute, responses, k + 1, next, sent', i);
    }
  }

  /** A click followed by a final message: the page sees the first
      screenshot, the click, the idle wait and one more screenshot, and the
      loop returns the message. */
  lemma ClickThenFinish(goal: string, callId: string, firstId: string, secondId: string, text: string)
    ensures var click := Action(Some("click"), Some(10), Some(10), None, None, None, None);
      var responses := [Response(firstId, [ComputerCall(callId, click)]),
                        Response(secondId, [Message([text])])];
      var r := RunLoop([], goal, responses);
      && r.log == [Screenshot, MouseClick(Some(10), Some(10)), WaitForLoadState(IdleState, IdleTimeoutMs), Screenshot]
      && r.requests == [InitialRequest(goal, Frame(0)), FollowUpRequest(firstId, callId, Frame(3))]
      && r.result == Returned(CompletedStatus, text)
  {
    TurnEventsCloseWithScreenshot();
    var click := Action(Some("click"), Some(10), Some(10), None, None, None, None);
    var first := [ComputerCall(callId, click)];
    var second := [Message([text])];
    assert Filter(first, CallType) == [ComputerCall(callId, click)] by {
      assert first[1..] == [];
    }
    assert Filter(second, CallType) == [] && Filter(second, MessageType) == [Message([text])] by {
      assert second[1..] == [];
    }
    var responses := [Response(firstId, first), Response(secondId, second)];
    assert DecideTurn(responses[0].output) == Act(callId, click);
    assert DecideTurn(responses[1].output) == Finish(Returned(CompletedStatus, text));
    var next := [Screenshot] + TurnEvents(click);
    assert next == [Screenshot, MouseClick(Some(10), Some(10)), WaitForLoadState(IdleState, IdleTimeoutMs), Screenshot];
    var sent := [InitialRequest(goal, Frame(0)), FollowUpRequest(firstId, callId, Frame(3))];
    RunFromActs(TurnEvents, responses, 0, [Screenshot], [InitialRequest(goal, Frame(0))]);
    assert [InitialRequest(goal, Frame(0))] + [FollowUpRequest(firstId, callId, Frame(|next| - 1))] == sent;
    assert RunLoop([], goal, responses) == RunFrom(TurnEvents, responses, 0, [Screenshot], [InitialRequest(goal, Frame(0))]) by {
      assert [] + [Screenshot] == [Screenshot];
    }
    RunFromStops(TurnEvents, responses, 1, next, sent);
  }

  // ---------------------------------------------------------------------------
  // Browser-session helpers
  // ---------------------------------------------------------------------------

  /** A goal handed to the computer-use loop by one of the helpers, with the
      values the helper puts into the goal. */
  datatype BrowserTask =
    | DriveLogin(username: string, password: string)
    | LibrarySearch(username: string, password: string, query: string)
    | CreateDoc(title: string, sections: seq<string>)
    | WriteDoc(url: string, content: string)
    | FormatDoc(url: string, guidelines: JournalStyleGuidelines)

  /** The browser session; each helper run against it is recorded in `tasks`. */
  class BrowserSession {
    var tasks: seq<BrowserTask>

    constructor ()
      ensures tasks == []
    {
      tasks := [];
    }

    method Run(task: BrowserTask)
      modifies this
      ensures tasks == old(tasks) + [task]
    {
      tasks := tasks + [task];
    }
  }

  /** `google_drive_login`: runs the login goal and reports success. */
  method GoogleDriveLogin(session: BrowserSession, username: string, password: string)
    returns (status: string)
    modifies session
    ensures session.tasks == old(session.tasks) + [DriveLogin(username, password)]
    ensures status == "logged_in"
  {
    session.Run(DriveLogin(username, password));
    status := "logged_in";
  }

  /** A paper found by the library search (`summary` holds its abstract). */
  datatype SearchResult = SearchResult(
    title: string,
    authors: string,
    publication: string,
    year: int,
    summary: string,
    url: string,
    pdfUrl: Option<string>,
    downloaded: bool)

  /** The fixed results the library-search helper reports after its run. */
  const MockLibraryResults: seq<SearchResult> := [
    SearchResult("The Impact of AI on Research Methodologies", "Smith, J. & Johnson, A.",
      "Journal of AI Research", 2023,
      "This paper examines how artificial intelligence is transforming research methodologies across disciplines.",
      "https://example.com/paper1", Some("https://example.com/paper1.pdf"), true),
    SearchResult("A Comparative Analysis of Machine Learning Techniques", "Chen, L. & Patel, V.",
      "Computational Research", 2022,
      "This study compares various machine learning techniques for data analysis.",
      "https://example.com/paper2", Some("https://example.com/paper2.pdf"), true),
    SearchResult("Ethical Considerations in Automated Research", "Garcia, M. et al.",
      "Ethics in Technology", 2021,
      "This paper discusses ethical considerations when deploying automated research systems.",
      "https://example.com/paper3", Some("https://example.com/paper3.pdf"), true)
  ]

  /** `ucalgary_library_search`: runs the search goal with the library login
      and the query, then reports the fixed results. */
  method UcalgaryLibrarySearch(session: BrowserSession, username: string, password: string, query: string)
    returns (results: seq<SearchResult>)
    modifies session
    ensures session.tasks == old(session.tasks) + [LibrarySearch(username, password, query)]
    ensures results == MockLibraryResults
  {
    session.Run(LibrarySearch(username, password, query));
    results := MockLibraryResults;
  }

  /** `write_google_doc`: runs the goal that types `content` into the document. */
  method WriteGoogleDoc(session: BrowserSession, url: string, content: string) returns (status: string)
    modifies session
    ensures session.tasks == old(session.tasks) + [WriteDoc(url, content)]
    ensures status == "content_written"
  {
    session.Run(WriteDoc(url, content));
    status := "content_written";
  }

  /** `format_according_to_journal_style`: runs the formatting goal built
      from the guidelines. */
  method FormatAccordingToJournalStyle(session: BrowserSession, url: string, guidelines: JournalStyleGuidelines)
    returns (status: string)
    modifies session
    ensures session.tasks == old(session.tasks) + [FormatDoc(url, guidelines)]
    ensures status == "formatting_applied"
  {
    session.Run(FormatDoc(url, guidelines));
    status := "formatting_applied";
  }

  const DefaultSections: seq<string> := [
    "Title", "Abstract", "Introduction", "Literature Review",
    "Methodology", "Results", "Discussion", "Conclusion", "References"
  ]

  /** The sections the new document is set up with: the given ones, or the
      nine standard headings when none are given. */
  function SectionsOrDefault(sections: Option<seq<string>>): seq<string>
  {
    if sections.Some? then sections.value else DefaultSections
  }

  /** The record returned for a newly created document. */
  datatype DocRecord = DocRecord(id: string, url: string, title: string)

  const DocIdPrefix := "doc_"
  const MockUrlPrefix := "https://docs.google.com/document/d/mock_"

  /** "doc_" followed by the first ten alphanumeric characters of the title. */
  function DocId(title: string): (id: string)
    ensures |id| == |DocIdPrefix| + (if |KeepAlnum(title)| < 10 then |KeepAlnum(title)| else 10)
    ensures id[..|DocIdPrefix|] == DocIdPrefix
    ensures |id| <= |DocIdPrefix| + 10 && |id| <= |DocIdPrefix| + |title|
    ensures forall i :: |DocIdPrefix| <= i < |id| ==> IsAlnum(id[i])
    ensures id[|DocIdPrefix|..] == KeepAlnum(title)[..|id| - |DocIdPrefix|]
  {
    var alnum := KeepAlnum(title);
    KeepAlnumProperties(title);
    DocIdPrefix + (if |alnum| < 10 then alnum else alnum[..10])
  }

  /** The mock URL: the prefix followed by the title with every space turned
      into an underscore. */
  function DocUrl(title: string): (url: string)
    ensures |url| == |MockUrlPrefix| + |title|
    ensures url[..|MockUrlPrefix|] == MockUrlPrefix
    ensures forall i :: 0 <= i < |title| ==>
      url[|MockUrlPrefix| + i] == if title[i] == ' ' then '_' else title[i]
    ensures forall i :: |MockUrlPrefix| <= i < |url| ==> url[i] != ' '
  {
    ReplaceCharAt(title, ' ', '_');
    MockUrlPrefix + Replace(title, " ", "_")
  }

  /** `create_google_doc`: runs the creation goal with the sections (or the
      default ones) and returns the derived id and URL with the title. */
  method CreateGoogleDoc(session: BrowserSession, title: string, sections: Option<seq<string>>)
    returns (doc: DocRecord)
    modifies session
    ensures session.tasks == old(session.tasks) + [CreateDoc(title, SectionsOrDefault(sections))]
    ensures doc == DocRecord(DocId(title), DocUrl(title), title)
  {
    var headings := if sections.None? then DefaultSections else sections.value;
    session.Run(CreateDoc(title, headings));
    doc := DocRecord(DocId(title), DocUrl(title), title);
  }

  /** An all-alphanumeric title of at most ten characters is its own id suffix. */
  lemma ShortAlnumTitleId(title: string)
    requires |title| <= 10
    requires forall i :: 0 <= i < |title| ==> IsAlnum(title[i])
    ensures DocId(title) == DocIdPrefix + title
  {
    KeepAlnumProperties(title);
  }
}
