/** The directory browser's request protocol: renders, effects, navigation and responses in any order. */
module DirectoryBrowser {
  import opened Wrappers

  /** One listing request; its response may arrive at any later time, or never. */
  datatype Request = Request(path: string, hidden: bool)

  datatype Answer = Answer(request: Request, content: string)

  /** What the component renders with; `translation` stands for the identity of `t`, and with it of
      the load callback. */
  datatype Props = Props(open: bool, value: string, hidden: bool, translation: nat)

  /** `committed` are the properties the effects last ran with. `hidden` is read through a reference
      that every render refreshes, so it is always the rendered one. */
  datatype State = State(
    props: Props, committed: Option<Props>,
    generation: nat, browsed: Option<string>, listed: Option<bool>,
    listing: Option<Answer>, loading: bool, error: Option<string>,
    outstanding: map<nat, Request>)
  {
    predicate Settled() {
      committed == Some(props)
    }
  }

  function Initial(props: Props): State {
    State(props, None, 0, None, None, None, false, None, map[])
  }

  datatype Event =
    | Render(props: Props)
    | RunEffects
    | Navigate(path: string)
    | Respond(generation: nat, result: Option<string>)   // None is a failure

  /** Starting a load: everything up to the awaited request. */
  function Load(s: State, path: string, preserveListing: bool): State {
    s.(generation := s.generation + 1,
       browsed := Some(path),
       listed := Some(s.props.hidden),
       loading := true,
       error := None,
       listing := if preserveListing then s.listing else None,
       outstanding := s.outstanding[s.generation + 1 := Request(path, s.props.hidden)])
  }

  function Close(s: State): State {
    s.(generation := s.generation + 1, browsed := None, listing := None, loading := false, error := None)
  }

  predicate OpeningChanged(s: State) {
    || s.committed.None?
    || s.committed.value.open != s.props.open
    || s.committed.value.value != s.props.value
    || s.committed.value.translation != s.props.translation
  }

  predicate VisibilityChanged(s: State) {
    || s.committed.None?
    || s.committed.value.open != s.props.open
    || s.committed.value.hidden != s.props.hidden
    || s.committed.value.translation != s.props.translation
  }

  /** The effect that opens and closes, after the cleanup of its previous run. */
  function OpeningEffect(s: State): State {
    if !OpeningChanged(s) then s
    else
      var cleaned := if s.committed.Some? && s.committed.value.open then s.(generation := s.generation + 1) else s;
      if s.props.open then Load(cleaned, s.props.value, false) else Close(cleaned)
  }

  /** The effect that lists again when hidden directories are revealed or concealed. */
  function VisibilityEffect(s: State): State {
    if !VisibilityChanged(s) || !s.props.open || s.browsed.None? || s.listed == Some(s.props.hidden) then s
    else Load(s, s.browsed.value, true)
  }

  function Effects(s: State): State {
    VisibilityEffect(OpeningEffect(s)).(committed := Some(s.props))
  }

  function Answered(s: State, generation: nat, result: Option<string>): State
    requires generation in s.outstanding
  {
    var t := s.(outstanding := s.outstanding - {generation});
    if generation != s.generation then t
    else
      match result
      case Some(content) => t.(listing := Some(Answer(s.outstanding[generation], content)), loading := false)
      case None => t.(error := Some("failed"), loading := false)
  }

  /** Effects of one render run before the next render; navigation needs an open browser. */
  predicate Enabled(s: State, e: Event) {
    match e
    case Render(_) => s.Settled()
    case RunEffects => !s.Settled()
    case Navigate(_) => s.props.open
    case Respond(g, _) => g in s.outstanding
  }

  function Apply(s: State, e: Event): State
    requires Enabled(s, e)
  {
    match e
    case Render(props) => s.(props := props)
    case RunEffects => Effects(s)
    case Navigate(path) => Load(s, path, false)
    case Respond(g, result) => Answered(s, g, result)
  }

  // ----- The component

  class DirectoryListing {
    var props: Props
    var committed: Option<Props>
    var requestGeneration: nat
    var browsedPath: Option<string>
    var listedVisibility: Option<bool>
    var listing: Option<Answer>
    var loading: bool
    var error: Option<string>
    var outstanding: map<nat, Request>

    ghost function Current(): State
      reads this
    {
      State(props, committed, requestGeneration, browsedPath, listedVisibility, listing, loading, error, outstanding)
    }

    constructor (props: Props)
      ensures Current() == Initial(props)
    {
      this.props, committed, requestGeneration := props, None, 0;
      browsedPath, listedVisibility, listing, loading, error := None, None, None, false, None;
      outstanding := map[];
    }

    method StartLoad(path: string, preserveListing: bool)
      modifies this
      ensures Current() == Load(old(Current()), path, preserveListing)
    {
      requestGeneration := requestGeneration + 1;
      browsedPath := Some(path);
      listedVisibility := Some(props.hidden);
      loading := true;
      error := None;
      if !preserveListing {
        listing := None;
      }
      outstanding := outstanding[requestGeneration := Request(path, props.hidden)];
    }

    method Finish(generation: nat, result: Option<string>)
      requires generation in outstanding
      modifies this
      ensures Current() == Answered(old(Current()), generation, result)
    {
      var request := outstanding[generation];
      outstanding := outstanding - {generation};
      if generation != requestGeneration {
        return;
      }
      match result {
        case Some(content) => listing := Some(Answer(request, content));
        case None => error := Some("failed");
      }
      loading := false;
    }

    method RunEffects()
      modifies this
      ensures Current() == Effects(old(Current()))
    {
      var previous := committed;
      if previous.None? || previous.value.open != props.open || previous.value.value != props.value
         || previous.value.translation != props.translation {
        if previous.Some? && previous.value.open {
          requestGeneration := requestGeneration + 1;
        }
        if !props.open {
          requestGeneration := requestGeneration + 1;
          browsedPath, listing, loading, error := None, None, false, None;
        } else {
          StartLoad(props.value, false);
        }
      }
      if previous.None? || previous.value.open != props.open || previous.value.hidden != props.hidden
         || previous.value.translation != props.translation {
        if props.open && browsedPath.Some? && listedVisibility != Some(props.hidden) {
          StartLoad(browsedPath.value, true);
        }
      }
      committed := Some(props);
    }
  }

  // ----- What every event keeps

  ghost predicate Inv(s: State) {
    && (forall g | g in s.outstanding :: g <= s.generation)
    && (s.listing.Some? ==> s.browsed == Some(s.listing.value.request.path))
    && (s.loading <==> s.generation in s.outstanding)
    && (s.loading ==> s.browsed.Some? && s.listed.Some?
                      && s.outstanding[s.generation] == Request(s.browsed.value, s.listed.value))
    && (s.browsed.Some? && !s.loading && s.error.None? ==>
          s.listing.Some? && s.listed.Some? && s.listing.value.request == Request(s.browsed.value, s.listed.value))
    && (s.Settled() && s.props.open ==> s.browsed.Some? && s.listed == Some(s.props.hidden))
    && (s.committed.Some? && !s.committed.value.open && !s.props.open ==> s.browsed.None? && s.error.None?)
    && (s.committed.Some? && s.committed.value.open ==> s.browsed.Some?)
    && (s.committed.Some? && s.committed.value.open && s.props.open && s.props.hidden == s.committed.value.hidden ==>
          s.listed == Some(s.props.hidden))
  }

  lemma OpeningKeeps(s: State)
    requires Inv(s) && s.props.open && OpeningChanged(s)
    ensures Inv(Effects(s))
  {}

  lemma RevealingKeeps(s: State)
    requires Inv(s) && !s.Settled() && s.props.open && !OpeningChanged(s)
    ensures Inv(Effects(s))
  {}

  lemma EffectsKeepOpen(s: State)
    requires Inv(s) && !s.Settled() && s.props.open
    ensures Inv(Effects(s))
  {
    if OpeningChanged(s) {
      OpeningKeeps(s);
    } else {
      RevealingKeeps(s);
    }
  }

  lemma EffectsKeepClosed(s: State)
    requires Inv(s) && !s.Settled() && !s.props.open
    ensures Inv(Effects(s))
  {}

  lemma AnswerKeeps(s: State, g: nat, result: Option<string>)
    requires Inv(s) && g in s.outstanding
    ensures Inv(Answered(s, g, result))
  {}

  lemma InvStep(s: State, e: Event)
    requires Inv(s) && Enabled(s, e)
    ensures Inv(Apply(s, e))
  {
    match e
    case RunEffects => if s.props.open { EffectsKeepOpen(s); } else { EffectsKeepClosed(s); }
    case Respond(g, result) => AnswerKeeps(s, g, result);
    case _ =>
  }

  ghost predicate Run(props: Props, events: seq<Event>, states: seq<State>) {
    && |states| == |events| + 1
    && states[0] == Initial(props)
    && forall i | 0 <= i < |events| ::
         Enabled(states[i], events[i]) && states[i + 1] == Apply(states[i], events[i])
  }

  lemma {:induction false} InvAlways(props: Props, events: seq<Event>, states: seq<State>, k: nat)
    requires Run(props, events, states) && k < |states|
    ensures Inv(states[k])
  {
    if k > 0 {
      InvAlways(props, events, states, k - 1);
      InvStep(states[k - 1], events[k - 1]);
    }
  }

  /** Whatever the order of events: a shown listing answers a request for the browsed path, loading is
      shown exactly while the current generation's request is outstanding, and a settled, open,
      idle, error-free browser shows the browsed path as fetched with the current hidden setting. */
  lemma BrowserNeverShowsTheWrongDirectory(props: Props, events: seq<Event>, states: seq<State>, k: nat)
    requires Run(props, events, states) && k < |states|
    ensures var s := states[k];
            && (s.listing.Some? ==> s.browsed == Some(s.listing.value.request.path))
            && (s.loading <==> s.generation in s.outstanding)
            && (s.Settled() && s.props.open && !s.loading && s.error.None? ==>
                  && s.browsed.Some? && s.listing.Some?
                  && s.listing.value.request == Request(s.browsed.value, s.props.hidden))
            && (s.Settled() && !s.props.open ==> s.listing.None? && !s.loading && s.error.None?)
  {
    InvAlways(props, events, states, k);
  }

  /** Every request of a run has its own generation, so a late response cannot pass for a newer one. */
  lemma StaleResponseChangesNothingShown(props: Props, events: seq<Event>, states: seq<State>, k: nat)
    requires Run(props, events, states) && k < |events|
    requires events[k].Respond? && states[k].generation != events[k].generation
    ensures states[k + 1] == states[k].(outstanding := states[k].outstanding - {events[k].generation})
    ensures events[k].generation < states[k].generation
  {
    InvAlways(props, events, states, k);
  }

  /** Revealing or concealing hidden directories lists the same place again and keeps what is shown
      meanwhile; opening starts from the chosen value, wherever browsing had gone before. */
  lemma EffectsKeepOrResetThePlace(props: Props, events: seq<Event>, states: seq<State>, k: nat)
    requires Run(props, events, states) && k < |events| && events[k] == RunEffects && states[k].props.open
    ensures var s, t := states[k], states[k + 1];
            if OpeningChanged(s) then t.browsed == Some(s.props.value) && t.listing.None? && t.loading
            else t.browsed == s.browsed && t.listing == s.listing && t.listed == Some(s.props.hidden)
  {
    InvAlways(props, events, states, k);
    InvAlways(props, events, states, k + 1);
  }

  // ----- What is shown comes from the responses

  /** Event `i` of a run answers the current request with this content. */
  ghost predicate AnsweredBy(events: seq<Event>, states: seq<State>, i: nat, answer: Answer) {
    && i < |events| && i < |states| && events[i] == Respond(states[i].generation, Some(answer.content))
    && states[i].generation in states[i].outstanding
    && states[i].outstanding[states[i].generation] == answer.request
  }

  /** A listing appears only with a response of the current generation. */
  lemma ListingStep(s: State, e: Event)
    requires Enabled(s, e) && Apply(s, e).listing.Some?
    ensures s.listing == Apply(s, e).listing
            || (exists content ::
                  && e == Respond(s.generation, Some(content)) && s.generation in s.outstanding
                  && Apply(s, e).listing == Some(Answer(s.outstanding[s.generation], content)))
  {}

  /** What is shown was the content of an earlier successful response to the request it names, while
      that request was the current one. */
  lemma {:induction false} ListingComesFromAResponse(props: Props, events: seq<Event>, states: seq<State>, k: nat)
    returns (i: nat)
    requires Run(props, events, states) && k < |states| && states[k].listing.Some?
    ensures i < k && AnsweredBy(events, states, i, states[k].listing.value)
  {
    var s, e := states[k - 1], events[k - 1];
    ListingStep(s, e);
    if s.listing == states[k].listing {
      i := ListingComesFromAResponse(props, events, states, k - 1);
    } else {
      i := k - 1;
    }
  }

  /** A response to the current request is shown: a success as a listing of its content, a failure as
      an error beside whatever was listed. Either ends the loading, and neither changes the place. */
  lemma ResponsesAreShown(props: Props, events: seq<Event>, states: seq<State>, k: nat)
    requires Run(props, events, states) && k < |events|
    requires events[k].Respond? && events[k].generation == states[k].generation
    ensures var s, t := states[k], states[k + 1];
            && !t.loading && t.browsed == s.browsed && t.listed == s.listed && t.generation == s.generation
            && t.outstanding == s.outstanding - {s.generation}
            && match events[k].result
               case Some(content) =>
                 t.listing == Some(Answer(s.outstanding[s.generation], content)) && t.error == s.error
               case None => t.listing == s.listing && t.error.Some?
  {}

  /** Navigation asks for the given path under the current hidden setting, and clears the rest. */
  lemma NavigationAsks(props: Props, events: seq<Event>, states: seq<State>, k: nat)
    requires Run(props, events, states) && k < |events| && events[k].Navigate?
    ensures var s, t := states[k], states[k + 1];
            && t.browsed == Some(events[k].path) && t.loading && t.error.None? && t.listing.None?
            && t.generation !in s.outstanding
            && t.outstanding == s.outstanding[t.generation := Request(events[k].path, s.props.hidden)]
  {
    InvAlways(props, events, states, k);
  }

  /** Effects ask for the chosen value when the browser opens or its value changes, for the browsed path
      when only the hidden setting has changed, and otherwise for nothing; closing clears everything. */
  lemma EffectsAsk(props: Props, events: seq<Event>, states: seq<State>, k: nat)
    requires Run(props, events, states) && k < |events| && events[k] == RunEffects
    ensures var s, t := states[k], states[k + 1];
            var asks := if !s.props.open then None
                        else if OpeningChanged(s) then Some(s.props.value)
                        else if s.listed != Some(s.props.hidden) then s.browsed
                        else None;
            && t.committed == Some(t.props) && t.props == s.props
            && (asks.Some? ==>
                  && t.generation > s.generation && t.loading && t.browsed == asks && t.error.None?
                  && t.outstanding == s.outstanding[t.generation := Request(asks.value, s.props.hidden)])
            && (asks.None? ==> t.outstanding == s.outstanding)
            && (s.props.open && asks.None? ==>
                  t.listing == s.listing && t.browsed == s.browsed && t.loading == s.loading && t.error == s.error)
            && (!s.props.open ==> t.browsed.None? && t.listing.None? && !t.loading && t.error.None?)
  {
    InvAlways(props, events, states, k);
  }

  /** The effects depend on what has changed since they last ran. */
  lemma ChangesAre(s: State)
    ensures OpeningChanged(s) <==>
            s.committed.None? || s.committed.value != s.props.(hidden := s.committed.value.hidden)
    ensures VisibilityChanged(s) <==>
            s.committed.None? || s.committed.value != s.props.(value := s.committed.value.value)
  {}
}
