/**
 * The planner's top level: a four-step wizard (destination, interests,
 * loading, result) over five pieces of state, the step indicator shown above
 * the later steps, and the quick-pick buttons that fill in a city.
 *
 * The itinerary request is a network call: `Generate` hands back the request
 * it would send, and the reply arrives later through `Receive`, so anything
 * the user does in between can be expressed.
 */
module App {
  import opened JsString
  import opened Wrappers

  // ------------------------------------------------------------ step indicator

  datatype Step = Destination | Interests | Loading | Result

  /** The string the code uses for each step. */
  function StepName(s: Step): string {
    match s
    case Destination => "destination"
    case Interests => "interests"
    case Loading => "loading"
    case Result => "result"
  }

  const STEP_LABELS: seq<string> := ["Destination", "Interests", "Itinerary"]

  /** `map[current] ?? 0`: the position of the highlighted step. */
  function ActiveIndex(current: string): (n: nat)
    ensures n < |STEP_LABELS|
  {
    if current == "interests" then 1
    else if current == "loading" || current == "result" then 2
    else 0
  }

  /** Loading and showing the result both highlight the last step; earlier steps highlight their own position. */
  lemma ActiveIndexOfSteps()
    ensures ActiveIndex(StepName(Destination)) == 0
    ensures ActiveIndex(StepName(Interests)) == 1
    ensures ActiveIndex(StepName(Loading)) == 2 && ActiveIndex(StepName(Result)) == 2
  {
  }

  /** Any name that is not one of the four steps highlights the first step. */
  lemma ActiveIndexOther(current: string)
    requires forall s: Step :: current != StepName(s)
    ensures ActiveIndex(current) == 0
  {
    assert current != StepName(Interests) && current != StepName(Loading) && current != StepName(Result);
  }

  datatype Mark = Check | Ordinal(n: nat)

  /** One step circle: its mark, whether it is coloured in, and whether it is the current step. */
  datatype Circle = Circle(mark: Mark, lit: bool, current: bool)

  /** The circles of the indicator: a check before the active step, the step's number from it on. */
  function StepCircles(active: nat): (cs: seq<Circle>)
    ensures |cs| == |STEP_LABELS|
  {
    seq(|STEP_LABELS|, i requires 0 <= i < |STEP_LABELS| =>
      Circle(if i < active then Check else Ordinal(i + 1), i <= active, i == active))
  }

  /** The connectors, one between each pair of neighbouring circles; `true` when coloured in. */
  function Connectors(active: nat): (ls: seq<bool>)
    ensures |ls| == |STEP_LABELS| - 1
  {
    seq(|STEP_LABELS| - 1, i requires 0 <= i < |STEP_LABELS| - 1 => i < active)
  }

  function CountChecks(cs: seq<Circle>): nat {
    if cs == [] then 0 else (if cs[0].mark == Check then 1 else 0) + CountChecks(cs[1..])
  }

  function CountCurrent(cs: seq<Circle>): nat {
    if cs == [] then 0 else (if cs[0].current then 1 else 0) + CountCurrent(cs[1..])
  }

  /** The indicator shows one check per finished step, exactly one current step, and numbers
      that count the remaining steps from the current one. */
  lemma StepBarProgress(current: string)
    ensures var cs := StepCircles(ActiveIndex(current));
            CountChecks(cs) == ActiveIndex(current) && CountCurrent(cs) == 1
            && (forall i :: 0 <= i < |cs| && cs[i].mark.Ordinal? ==> cs[i].mark.n == i + 1 && i >= ActiveIndex(current))
            && forall i :: 0 <= i < |cs| ==>
                 (cs[i].current <==> i == ActiveIndex(current)) && (cs[i].lit <==> i <= ActiveIndex(current))
  {
    var cs := StepCircles(ActiveIndex(current));
    assert cs[1..] == [cs[1], cs[2]] && cs[1..][1..] == [cs[2]] && cs[1..][1..][1..] == [];
    assert CountChecks(cs) == CountChecks([cs[0]]) + CountChecks([cs[1]]) + CountChecks([cs[2]]);
    assert CountCurrent(cs) == CountCurrent([cs[0]]) + CountCurrent([cs[1]]) + CountCurrent([cs[2]]);
  }

  /** A connector is coloured exactly when the step it leaves is finished. */
  lemma ConnectorsLit(current: string)
    ensures forall i :: 0 <= i < |Connectors(ActiveIndex(current))| ==>
              (Connectors(ActiveIndex(current))[i] <==> StepCircles(ActiveIndex(current))[i].mark == Check)
  {
  }

  // ------------------------------------------------------------ messages

  const DESTINATION_ERROR: string := "Please enter a destination first."
  const INTEREST_ERROR: string := "Choose at least one interest."
  const SERVER_ERROR: string := "Could not reach the server. Is the backend running?"

  /** The server's answer to the itinerary request: the itinerary, or a failure carrying the
      response's `detail` and `message` fields when they are present. */
  datatype Reply = Success(itinerary: string) | Failure(detail: Option<string>, message: Option<string>)

  /** `detail || message || fallback`: the first field that is present and non-empty. */
  function FailureText(detail: Option<string>, message: Option<string>): (r: string)
    ensures r != ""
    ensures detail.Some? && detail.value != "" ==> r == detail.value
    ensures (detail.None? || detail.value == "") && message.Some? && message.value != "" ==> r == message.value
    ensures (detail.None? || detail.value == "") && (message.None? || message.value == "") ==> r == SERVER_ERROR
  {
    if detail.Some? && detail.value != "" then detail.value
    else if message.Some? && message.value != "" then message.value
    else SERVER_ERROR
  }

  // ------------------------------------------------------------ wizard

  /** The five state fields of the top-level component, and `issued`: how many requests
      `generate` has sent so far, which names each pending continuation of `generate`. */
  datatype State = State(step: Step, city: string, interests: seq<string>, itinerary: string, error: string,
                         issued: nat)

  const INITIAL: State := State(Destination, "", [], "", "", 0)

  /** The body of the itinerary request, with the number of the `generate` call that sent it. */
  datatype Request = Request(city: string, interests: seq<string>, id: nat)

  /** `goInterests`: a blank city only sets the destination error; otherwise the error clears and the interests step opens. */
  function GoInterestsNext(s: State): (t: State)
    ensures t.city == s.city && t.interests == s.interests && t.itinerary == s.itinerary && t.issued == s.issued
    ensures AllSpace(s.city) <==> t.error == DESTINATION_ERROR
    ensures !AllSpace(s.city) ==> t.error == ""
    ensures t.step == if AllSpace(s.city) then s.step else Interests
  {
    if Trim(s.city) == [] then s.(error := DESTINATION_ERROR)
    else s.(error := "", step := Interests)
  }

  /** The synchronous part of `generate`: without interests only the interest error is set;
      otherwise the error clears, the loading step opens and the request goes out. */
  function GenerateNext(s: State): (t: State)
    ensures t.city == s.city && t.interests == s.interests && t.itinerary == s.itinerary
    ensures t.issued == if s.interests == [] then s.issued else s.issued + 1
    ensures s.interests == [] <==> t.error == INTEREST_ERROR
    ensures s.interests != [] ==> t.error == ""
    ensures t.step == if s.interests == [] then s.step else Loading
  {
    if |s.interests| == 0 then s.(error := INTEREST_ERROR)
    else s.(error := "", step := Loading, issued := s.issued + 1)
  }

  /** The request `generate` sends, if it sends one. */
  function GenerateRequest(s: State): (q: Option<Request>)
    ensures q.Some? <==> s.interests != []
    ensures q.Some? ==> q.value.city == s.city && q.value.interests == s.interests
    ensures q.Some? ==> q.value.id == s.issued + 1 && q.value.id == GenerateNext(s).issued
  {
    if |s.interests| == 0 then None else Some(Request(s.city, s.interests, s.issued + 1))
  }

  /** The rest of `generate` as written: whatever the wizard shows by then, a success stores
      the itinerary and opens the result, a failure sets the error and goes back to interests. */
  function ReceiveAsWritten(s: State, reply: Reply): (t: State)
    ensures t.city == s.city && t.interests == s.interests && t.issued == s.issued
    ensures reply.Success? ==> t.step == Result && t.itinerary == reply.itinerary && t.error == s.error
    ensures reply.Failure? ==> t.step == Interests && t.itinerary == s.itinerary && t.error != ""
    ensures reply.Failure? ==> t.error == FailureText(reply.detail, reply.message)
  {
    match reply
    case Success(text) => s.(itinerary := text, step := Result)
    case Failure(detail, message) => s.(error := FailureText(detail, message), step := Interests)
  }

  /** The reply to request `id`, handled only while the wizard is loading that very request;
      a reply to a request the user has since abandoned (by starting over, or by sending a
      newer one) is dropped. */
  function ReceiveNext(s: State, id: nat, reply: Reply): (t: State)
    ensures s.step == Loading && id == s.issued ==> t == ReceiveAsWritten(s, reply)
    ensures s.step != Loading || id != s.issued ==> t == s
  {
    if s.step == Loading && id == s.issued then ReceiveAsWritten(s, reply) else s
  }

  /** `reset`: the five fields return to their initial values; the count of requests sent
      is not part of the component's fields and goes on. */
  function ResetNext(s: State): (t: State)
    ensures t.step == Destination && t.city == "" && t.interests == [] && t.itinerary == "" && t.error == ""
    ensures t.issued == s.issued
  {
    INITIAL.(issued := s.issued)
  }

  /** Back: return to the destination step and clear the error, keeping everything else. */
  function BackNext(s: State): (t: State)
    ensures t.step == Destination && t.error == ""
    ensures t.city == s.city && t.interests == s.interests && t.itinerary == s.itinerary && t.issued == s.issued
  {
    s.(step := Destination, error := "")
  }

  /** Continuing and coming back restores the destination step exactly as it was. */
  lemma BackUndoesGoInterests(s: State)
    requires s.step == Destination && s.error == "" && !AllSpace(s.city)
    ensures BackNext(GoInterestsNext(s)) == s
  {
  }

  /** A failed request returns to the interests step with the choices kept and the failure shown. */
  lemma GenerateThenFailure(s: State, detail: Option<string>, message: Option<string>)
    requires s.step == Interests && s.interests != []
    ensures ReceiveNext(GenerateNext(s), s.issued + 1, Failure(detail, message))
         == s.(error := FailureText(detail, message), issued := s.issued + 1)
  {
  }

  /** A successful request shows the returned itinerary for the chosen city and interests. */
  lemma GenerateThenSuccess(s: State, text: string)
    requires s.interests != []
    ensures ReceiveNext(GenerateNext(s), s.issued + 1, Success(text))
         == s.(step := Result, itinerary := text, error := "", issued := s.issued + 1)
  {
  }

  // ------------------------------------------------------------ quick picks

  const QUICK_PICKS: seq<string> := [
    "\U{1F5FC} Paris", "\U{1F5FE} Tokyo", "\U{1F5FD} New York", "\U{1F3DB}\U{FE0F} Rome",
    "\U{1F334} Bali", "\U{1F306} Dubai", "\U{1F1EE}\U{1F1F3} Bangalore"
  ]

  /** `d.split(' ').slice(1).join(' ')`. */
  function QuickPickCity(d: string): string {
    Join(Split(d, ' ')[1..], ' ')
  }

  /** A quick pick drops its first space-separated word and keeps the rest exactly. */
  lemma QuickPickDropsFirstWord(icon: string, rest: string)
    requires ' ' !in icon
    ensures QuickPickCity(icon + " " + rest) == rest
  {
    var d := icon + " " + rest;
    assert d[..|icon|] == icon && d[|icon|] == ' ';
    assert ' ' in d;
    var k := IndexOf(d, ' ');
    assert k == |icon| by {
      assert forall j :: 0 <= j < |icon| ==> d[j] == icon[j];
      assert forall j :: 0 <= j < k ==> d[..k][j] == d[j];
    }
    assert d[k + 1..] == rest;
    JoinSplit(rest, ' ');
  }

  /** A label without a space yields the empty city. */
  lemma QuickPickOneWord(d: string)
    requires ' ' !in d
    ensures QuickPickCity(d) == ""
  {
  }

  /** The seven quick picks name Paris, Tokyo, New York, Rome, Bali, Dubai and Bangalore. */
  lemma QuickPickCities()
    ensures forall i :: 0 <= i < |QUICK_PICKS| ==>
              QuickPickCity(QUICK_PICKS[i]) == ["Paris", "Tokyo", "New York", "Rome", "Bali", "Dubai", "Bangalore"][i]
  {
    forall i | 0 <= i < |QUICK_PICKS|
      ensures QuickPickCity(QUICK_PICKS[i]) == ["Paris", "Tokyo", "New York", "Rome", "Bali", "Dubai", "Bangalore"][i]
    {
      QuickPickAt(i);
    }
  }

  lemma QuickPickAt(i: nat)
    requires i < |QUICK_PICKS|
    ensures QuickPickCity(QUICK_PICKS[i]) == ["Paris", "Tokyo", "New York", "Rome", "Bali", "Dubai", "Bangalore"][i]
  {
    var names := ["Paris", "Tokyo", "New York", "Rome", "Bali", "Dubai", "Bangalore"];
    var icons := ["\U{1F5FC}", "\U{1F5FE}", "\U{1F5FD}", "\U{1F3DB}\U{FE0F}", "\U{1F334}", "\U{1F306}", "\U{1F1EE}\U{1F1F3}"];
    assert QUICK_PICKS[i] == icons[i] + " " + names[i];
    assert ' ' !in icons[i];
    QuickPickDropsFirstWord(icons[i], names[i]);
  }

  // ------------------------------------------------------------ reachable states

  /** What the user (or the network) can do. */
  datatype Event =
    | EditCity(text: string)
    | PickCity(pick: string)
    | Continue
    | EditInterests(list: seq<string>)
    | GenerateClick
    | Arrive(id: nat, reply: Reply)
    | ResetClick
    | BackClick

  /** Which controls are on screen: city editing, quick picks and Continue on the destination
      step; the interest picker, Back and Generate on the interests step; the logo (reset)
      always. A reply may arrive at any time. */
  predicate OnScreen(s: State, e: Event) {
    match e
    case EditCity(_) => s.step == Destination
    case PickCity(_) => s.step == Destination
    case Continue => s.step == Destination
    case EditInterests(_) => s.step == Interests
    case GenerateClick => s.step == Interests
    case BackClick => s.step == Interests
    case Arrive(_, _) => true
    case ResetClick => true
  }

  /** One event, with the reply handled by `receive`. */
  function Apply(s: State, e: Event, receive: (State, nat, Reply) -> State): State {
    match e
    case EditCity(text) => s.(city := text)
    case PickCity(pick) => s.(city := QuickPickCity(pick))
    case Continue => GoInterestsNext(s)
    case EditInterests(list) => s.(interests := list)
    case GenerateClick => GenerateNext(s)
    case Arrive(id, reply) => receive(s, id, reply)
    case ResetClick => ResetNext(s)
    case BackClick => BackNext(s)
  }

  /** Past the destination step the city is never blank, and loading or showing a result
      always has interests behind it. */
  predicate Consistent(s: State) {
    (s.step != Destination ==> !AllSpace(s.city))
    && (s.step == Loading || s.step == Result ==> s.interests != [])
  }

  /** Every step the user can take keeps the wizard consistent when stale replies are dropped. */
  lemma ConsistentPreserved(s: State, e: Event)
    requires Consistent(s) && OnScreen(s, e)
    ensures Consistent(Apply(s, e, ReceiveNext))
  {
    if e.Continue? {
      assert GoInterestsNext(s).step == Interests ==> !AllSpace(s.city);
    }
  }

  /** As written, a reply that arrives after the user has started over opens the result step
      with a blank city and no interests. */
  lemma StaleReplyAsWritten(s: State, text: string)
    requires s.step == Loading && Consistent(s)
    ensures var asWritten := (t: State, id: nat, reply: Reply) => ReceiveAsWritten(t, reply);
            var r := Apply(s, ResetClick, asWritten);
            Consistent(r) && OnScreen(r, Arrive(s.issued, Success(text)))
            && !Consistent(Apply(r, Arrive(s.issued, Success(text)), asWritten))
  {
    assert AllSpace(ResetNext(s).city);
  }

  /** The request in flight, if the wizard is loading request `q`, is the one on screen:
      its number is the latest and it carries the city and interests shown. A request the
      user has abandoned has a number below the latest. */
  predicate Answers(s: State, q: Request) {
    q.id <= s.issued
    && (s.step == Loading && q.id == s.issued ==> q.city == s.city && q.interests == s.interests)
  }

  /** The request `generate` sends is the one the wizard then loads. */
  lemma GenerateAnswers(s: State)
    requires s.interests != []
    ensures GenerateRequest(s).Some? && Answers(GenerateNext(s), GenerateRequest(s).value)
  {
  }

  /** Every step the user can take keeps each request sent so far answered correctly: it is
      either still the one on screen, or abandoned for good. */
  lemma AnswersPreserved(s: State, e: Event, q: Request)
    requires Answers(s, q) && OnScreen(s, e)
    ensures Answers(Apply(s, e, ReceiveNext), q)
  {
  }

  /** With the corrected handler a reply changes the wizard only when it answers the request
      on screen: the itinerary or error it brings belongs to the city and interests shown. */
  lemma ReplyAnswersRequest(s: State, q: Request, reply: Reply)
    requires Answers(s, q)
    ensures ReceiveNext(s, q.id, reply) == s
            || (s.step == Loading && q == Request(s.city, s.interests, s.issued))
  {
  }

  /** The wizard after a run of events, replies handled by the corrected handler. */
  function Run(s: State, es: seq<Event>): State
    decreases |es|
  {
    if es == [] then s else Run(Apply(s, es[0], ReceiveNext), es[1..])
  }

  /** Every event of the run is on screen when it happens. */
  predicate AllOnScreen(s: State, es: seq<Event>)
    decreases |es|
  {
    es == [] || (OnScreen(s, es[0]) && AllOnScreen(Apply(s, es[0], ReceiveNext), es[1..]))
  }

  lemma {:induction false} RunAnswers(s: State, es: seq<Event>, q: Request)
    requires Answers(s, q) && AllOnScreen(s, es)
    ensures Answers(Run(s, es), q)
    decreases |es|
  {
    if es != [] {
      AnswersPreserved(s, es[0], q);
      RunAnswers(Apply(s, es[0], ReceiveNext), es[1..], q);
    }
  }

  /** Whatever the user does after Generate (start over, pick another city, send a newer
      request), the reply to that request is applied only while the wizard still shows the
      city and interests it was sent for. */
  lemma ReplyOnlyForItsRequest(s: State, es: seq<Event>, reply: Reply)
    requires s.interests != [] && AllOnScreen(GenerateNext(s), es)
    ensures var q := GenerateRequest(s).value;
            var r := Run(GenerateNext(s), es);
            ReceiveNext(r, q.id, reply) == r
            || (r.step == Loading && r.city == s.city && r.interests == s.interests)
  {
    var q := GenerateRequest(s).value;
    GenerateAnswers(s);
    RunAnswers(GenerateNext(s), es, q);
    ReplyAnswersRequest(Run(GenerateNext(s), es), q, reply);
  }

  /** A reply to an abandoned request is dropped, even while a newer request is loading. */
  lemma SupersededReplyDropped(s: State, q: Request, reply: Reply)
    requires Answers(s, q) && q.id < s.issued
    ensures ReceiveNext(s, q.id, reply) == s
  {
  }

  /** The top-level component's state, changed in place by its handlers. */
  class Wizard {
    var step: Step
    var city: string
    var interests: seq<string>
    var itinerary: string
    var error: string
    var issued: nat

    function Snapshot(): State
      reads this
    {
      State(step, city, interests, itinerary, error, issued)
    }

    constructor ()
      ensures Snapshot() == INITIAL
    {
      step, city, interests, itinerary, error, issued := Destination, "", [], "", "", 0;
    }

    /** The city box reports a new text. */
    method SetCity(text: string)
      modifies this
      ensures Snapshot() == old(Snapshot()).(city := text)
    {
      city := text;
    }

    /** A quick-pick button. */
    method QuickPick(pick: string)
      modifies this
      ensures Snapshot() == old(Snapshot()).(city := QuickPickCity(pick))
    {
      city := QuickPickCity(pick);
    }

    /** The interest picker reports a new list. */
    method SetInterests(list: seq<string>)
      modifies this
      ensures Snapshot() == old(Snapshot()).(interests := list)
    {
      interests := list;
    }

    method GoInterests()
      modifies this
      ensures Snapshot() == GoInterestsNext(old(Snapshot()))
    {
      if Trim(city) == [] {
        error := DESTINATION_ERROR;
        return;
      }
      error := "";
      step := Interests;
    }

    method Generate() returns (request: Option<Request>)
      modifies this
      ensures Snapshot() == GenerateNext(old(Snapshot()))
      ensures request == GenerateRequest(old(Snapshot()))
    {
      if |interests| == 0 {
        error := INTEREST_ERROR;
        return None;
      }
      error := "";
      step := Loading;
      issued := issued + 1;
      request := Some(Request(city, interests, issued));
    }

    /** The reply to request `id`, dropped unless the wizard is still loading that request. */
    method Receive(id: nat, reply: Reply)
      modifies this
      ensures Snapshot() == ReceiveNext(old(Snapshot()), id, reply)
    {
      if step != Loading || id != issued {
        return;
      }
      match reply
      case Success(text) =>
        itinerary := text;
        step := Result;
      case Failure(detail, message) =>
        error := FailureText(detail, message);
        step := Interests;
    }

    /** `reset`: every field back to its initial value; the request count goes on. */
    method Reset()
      modifies this
      ensures Snapshot() == ResetNext(old(Snapshot()))
    {
      city := "";
      interests := [];
      itinerary := "";
      error := "";
      step := Destination;
    }

    /** The Back button on the interests step. */
    method Back()
      modifies this
      ensures Snapshot() == BackNext(old(Snapshot()))
    {
      step := Destination;
      error := "";
    }
  }
}
