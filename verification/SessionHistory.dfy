/** Navigation history of a session: a list with a position, against a back/forward zipper. */
module SessionHistory {
  import opened Text

  type Url = string

  /** How far a navigation or a POST got. */
  datatype LoadOutcome =
    | Refused                 // bad URL, offline, transport or HTTP error, or a page that could not be built
    | Downloaded              // saved as an attachment instead of being rendered
    | Loaded(finalUrl: Url, settled: bool)   // committed; `settled` if what the new page's scripts asked for went well

  /** How far a traversal or a reload got after its own checks. */
  datatype FetchOutcome = Offline | Failed | Fetched

  datatype Result = Ok | Closed | NoEntry | Error | Panicked

  // ---------- the zipper ----------

  datatype Zipper = Empty | At(back: seq<Url>, here: Url, ahead: seq<Url>)

  function ZipperOf(history: seq<Url>, index: nat): Zipper
    requires history == [] || index < |history|
  {
    if history == [] then Empty else At(history[..index], history[index], history[index + 1..])
  }

  function Visit(z: Zipper, u: Url): Zipper {
    match z
    case Empty => At([], u, [])
    case At(back, here, _) => At(back + [here], u, [])
  }

  function Back(z: Zipper): Zipper {
    if z.At? && z.back != [] then At(z.back[..|z.back| - 1], z.back[|z.back| - 1], [z.here] + z.ahead) else z
  }

  function Forward(z: Zipper): Zipper {
    if z.At? && z.ahead != [] then At(z.back + [z.here], z.ahead[0], z.ahead[1..]) else z
  }

  function Entries(z: Zipper): seq<Url> {
    match z
    case Empty => []
    case At(back, here, ahead) => back + [here] + ahead
  }

  /** The zipper of the fields holds the history, with the position as its place. */
  lemma EntriesOfFields(history: seq<Url>, index: nat)
    requires history == [] || index < |history|
    ensures var z := ZipperOf(history, index);
            Entries(z) == history && (z.At? ==> |z.back| == index)
  {
    if history != [] {
      assert history == history[..index] + [history[index]] + history[index + 1..];
    }
  }

  /** On the zipper, back and forward undo each other and lose no entry. */
  lemma ForwardUndoesBack(z: Zipper)
    requires z.At? && z.back != []
    ensures Forward(Back(z)) == z && Entries(Back(z)) == Entries(z)
  {
    assert z.back[..|z.back| - 1] + [z.back[|z.back| - 1]] == z.back;
  }

  lemma BackUndoesForward(z: Zipper)
    requires z.At? && z.ahead != []
    ensures Back(Forward(z)) == z && Entries(Forward(z)) == Entries(z)
  {
    assert [z.ahead[0]] + z.ahead[1..] == z.ahead;
    assert (z.back + [z.here])[..|z.back|] == z.back;
  }

  // ---------- one operation on the fields ----------

  /** The fields of an open session; `shown` is the position the page on display was loaded from. */
  datatype State = State(history: seq<Url>, index: nat, page: Option<Url>, shown: nat)

  datatype Op = Visiting(load: LoadOutcome) | GoingBack(fetch: FetchOutcome) | GoingForward(fetch: FetchOutcome)

  /** While open: the history is empty or both positions are in bounds, and the page on display is the entry it
      was loaded from. */
  ghost predicate InBounds(s: State) {
    && (s.history == [] ==> s.index == 0 && s.page.None?)
    && (s.history != [] ==> s.index < |s.history| && s.shown < |s.history| && s.page == Some(s.history[s.shown]))
  }

  predicate MovesBack(s: State, fetch: FetchOutcome) { s.index > 0 && !fetch.Offline? }
  predicate MovesForward(s: State, fetch: FetchOutcome) { s.index < |s.history| - 1 && !fetch.Offline? }

  /** What a load keeps of the history. */
  function Kept(history: seq<Url>, index: nat): seq<Url>
    requires history == [] || index < |history|
  {
    if history == [] then [] else history[..index + 1]
  }

  function Apply(s: State, op: Op): (s': State)
    requires InBounds(s)
    ensures InBounds(s')
  {
    match op
    case Visiting(Loaded(u, _)) =>
      var kept := Kept(s.history, s.index);
      State(kept + [u], |kept|, Some(u), |kept|)
    case Visiting(_) => s
    case GoingBack(fetch) =>
      if !MovesBack(s, fetch) then s
      else if fetch.Failed? then s.(index := s.index - 1)
      else State(s.history, s.index - 1, Some(s.history[s.index - 1]), s.index - 1)
    case GoingForward(fetch) =>
      if !MovesForward(s, fetch) then s
      else if fetch.Failed? then s.(index := s.index + 1)
      else State(s.history, s.index + 1, Some(s.history[s.index + 1]), s.index + 1)
  }

  function Position(s: State): Zipper
    requires InBounds(s)
  {
    ZipperOf(s.history, s.index)
  }

  lemma ZipperVisit(history: seq<Url>, index: nat, u: Url)
    requires history == [] || index < |history|
    ensures var kept := Kept(history, index);
            ZipperOf(kept + [u], |kept|) == Visit(ZipperOf(history, index), u)
  {
    if history != [] {
      assert (history[..index + 1] + [u])[..index + 1] == history[..index] + [history[index]];
    }
  }

  lemma ZipperBack(history: seq<Url>, index: nat)
    requires 0 < index < |history|
    ensures ZipperOf(history, index - 1) == Back(ZipperOf(history, index))
  {
    assert history[..index][..index - 1] == history[..index - 1];
    assert [history[index]] + history[index + 1..] == history[index..];
  }

  lemma ZipperForward(history: seq<Url>, index: nat)
    requires index + 1 < |history|
    ensures ZipperOf(history, index + 1) == Forward(ZipperOf(history, index))
  {
    assert history[..index] + [history[index]] == history[..index + 1];
    assert history[index + 1..][1..] == history[index + 2..];
  }

  lemma RefinesVisit(s: State, load: LoadOutcome)
    requires InBounds(s)
    ensures Position(Apply(s, Visiting(load)))
         == if load.Loaded? then Visit(Position(s), load.finalUrl) else Position(s)
  {
    if load.Loaded? {
      ZipperVisit(s.history, s.index, load.finalUrl);
    }
  }

  lemma RefinesBack(s: State, fetch: FetchOutcome)
    requires InBounds(s)
    ensures Position(Apply(s, GoingBack(fetch))) == if fetch.Offline? then Position(s) else Back(Position(s))
  {
    if MovesBack(s, fetch) {
      ZipperBack(s.history, s.index);
    }
  }

  lemma RefinesForward(s: State, fetch: FetchOutcome)
    requires InBounds(s)
    ensures Position(Apply(s, GoingForward(fetch))) == if fetch.Offline? then Position(s) else Forward(Position(s))
  {
    if MovesForward(s, fetch) {
      ZipperForward(s.history, s.index);
    }
  }

  /** The list with an index refines the zipper, whether the fetches succeed or fail. */
  lemma RefinesZipper(s: State, op: Op)
    requires InBounds(s)
    ensures Position(Apply(s, op)) ==
      match op
      case Visiting(load) => if load.Loaded? then Visit(Position(s), load.finalUrl) else Position(s)
      case GoingBack(fetch) => if fetch.Offline? then Position(s) else Back(Position(s))
      case GoingForward(fetch) => if fetch.Offline? then Position(s) else Forward(Position(s))
  {
    match op
    case Visiting(load) => RefinesVisit(s, load);
    case GoingBack(fetch) => RefinesBack(s, fetch);
    case GoingForward(fetch) => RefinesForward(s, fetch);
  }

  /** A successful back and then a successful forward restore position, history and page address. */
  lemma BackThenForward(s: State)
    requires InBounds(s) && s.index > 0
    ensures var there := Apply(Apply(s, GoingBack(Fetched)), GoingForward(Fetched));
            there.history == s.history && there.index == s.index && there.page == Some(s.history[s.index])
  {
  }

  /** `k` steps back, successful or failed, and then a load, discard exactly the `k` entries walked over and
      whatever was ahead of them. */
  lemma {:induction false} LoadAfterBacks(s: State, fetches: seq<FetchOutcome>, u: Url, settled: bool)
    requires InBounds(s) && s.history != [] && |fetches| <= s.index && Offline !in fetches
    ensures Apply(BackAll(s, fetches), Visiting(Loaded(u, settled))).history
         == s.history[..s.index + 1 - |fetches|] + [u]
    ensures BackAll(s, fetches).index == s.index - |fetches| && BackAll(s, fetches).history == s.history
  {
    if fetches != [] {
      var init := fetches[..|fetches| - 1];
      assert Offline !in init by {
        assert forall f | f in init :: f in fetches;
      }
      LoadAfterBacks(s, init, u, settled);
      assert fetches[|fetches| - 1] in fetches;
    }
  }

  function BackAll(s: State, fetches: seq<FetchOutcome>): (s': State)
    requires InBounds(s)
    ensures InBounds(s')
  {
    if fetches == [] then s
    else Apply(BackAll(s, fetches[..|fetches| - 1]), GoingBack(fetches[|fetches| - 1]))
  }

  // ---------- whole runs ----------

  function Run(ops: seq<Op>): (s: State)
    ensures InBounds(s)
  {
    if ops == [] then State([], 0, None, 0) else Apply(Run(ops[..|ops| - 1]), ops[|ops| - 1])
  }

  /** Failed steps forward minus failed steps back since the last load that succeeded. */
  function Drift(ops: seq<Op>): int {
    if ops == [] then 0
    else
      var s, drift, last := Run(ops[..|ops| - 1]), Drift(ops[..|ops| - 1]), ops[|ops| - 1];
      match last
      case Visiting(load) => if load.Loaded? then 0 else drift
      case GoingBack(fetch) => if !MovesBack(s, fetch) then drift else if fetch.Failed? then drift - 1 else 0
      case GoingForward(fetch) => if !MovesForward(s, fetch) then drift else if fetch.Failed? then drift + 1 else 0
  }

  /** In every run the position is off the page on display by exactly the drift, so the two agree if and only if
      the failed steps since the last load cancel out. */
  lemma {:induction false} PositionDrifts(ops: seq<Op>)
    ensures var s := Run(ops);
            && (s.history != [] ==> s.page == Some(s.history[s.shown]) && s.index == s.shown + Drift(ops))
            && (s.history != [] ==> (s.index == s.shown <==> Drift(ops) == 0))
            && (s.history == [] ==> Drift(ops) == 0)
  {
    if ops != [] {
      PositionDrifts(ops[..|ops| - 1]);
    }
  }

  /** Loading a page after failed steps back drops the entry of the page that was on display. */
  lemma DriftedLoadDropsShown(ops: seq<Op>, u: Url, settled: bool)
    requires Run(ops).history != []
    ensures var s, s' := Run(ops), Apply(Run(ops), Visiting(Loaded(u, settled)));
            && s'.history == s.history[..s.index + 1] + [u]
            && (s.shown < |s'.history| - 1 <==> Drift(ops) >= 0)
  {
    PositionDrifts(ops);
  }

  /** Two loads and one failed step back: the position is at the first entry, the page on display the second. */
  lemma FailedBackDrifts(a: Url, b: Url) returns (ops: seq<Op>)
    ensures ops == [Visiting(Loaded(a, true)), Visiting(Loaded(b, true)), GoingBack(Failed)]
    ensures Run(ops) == State([a, b], 0, Some(b), 1) && Drift(ops) == -1
  {
    var loads := [Visiting(Loaded(a, true)), Visiting(Loaded(b, true))];
    assert loads[..1] == [Visiting(Loaded(a, true))];
    assert loads[..1][..0] == [];
    assert Run(loads[..1]) == State([a], 0, Some(a), 0);
    assert Run(loads) == State([a, b], 1, Some(b), 1);
    ops := loads + [GoingBack(Failed)];
    assert ops[..2] == loads;
    PositionDrifts(ops);
  }

  // ---------- the session ----------

  class Session {
    var history: seq<Url>
    var historyIndex: nat
    var activePage: Option<Url>
    var closed: bool
    ghost var shown: nat

    ghost function Fields(): State
      reads this
    {
      State(history, historyIndex, activePage, shown)
    }

    ghost predicate Valid()
      reads this
    {
      !closed ==> InBounds(Fields())
    }

    constructor ()
      ensures Valid() && !closed && Fields() == Run([])
    {
      history := [];
      historyIndex := 0;
      activePage := None;
      closed := false;
      shown := 0;
    }

    /** The tail of `navigate`, `navigate_about`, `navigate_data_url` and `post`. */
    method Commit(finalUrl: Url)
      requires Valid() && !closed
      modifies this
      ensures Valid() && !closed && Fields() == Apply(old(Fields()), Visiting(Loaded(finalUrl, true)))
    {
      if history == [] {
      } else if historyIndex < |history| - 1 {
        history := history[..historyIndex + 1];
      }
      assert history == Kept(old(history), old(historyIndex));
      history := history + [finalUrl];
      historyIndex := |history| - 1;
      activePage := Some(finalUrl);
      shown := historyIndex;
    }

    /** A navigation or POST that loads a page visits it, even when what the page's scripts asked for then fails
        and the call reports that error; every other outcome leaves the history alone. */
    method Navigate(outcome: LoadOutcome) returns (r: Result)
      requires Valid()
      modifies this
      ensures Valid() && closed == old(closed)
      ensures r == if closed then Result.Closed
                   else if outcome.Refused? || (outcome.Loaded? && !outcome.settled) then Error else Ok
      ensures Fields() == if closed then old(Fields()) else Apply(old(Fields()), Visiting(outcome))
    {
      if closed {
        return Result.Closed;
      }
      match outcome
      case Refused => return Error;
      case Downloaded => return Ok;
      case Loaded(u, settled) =>
        Commit(u);
        return if settled then Ok else Error;
    }

    /** Steps back before it fetches: a failed fetch leaves the position moved and the old page on display. */
    method GoBack(outcome: FetchOutcome) returns (r: Result)
      requires Valid()
      modifies this
      ensures Valid() && closed == old(closed)
      ensures r == if closed then Result.Closed
                   else if old(historyIndex) == 0 then NoEntry
                   else if outcome.Fetched? then Ok else Error
      ensures Fields() == if closed then old(Fields()) else Apply(old(Fields()), GoingBack(outcome))
    {
      if closed {
        return Result.Closed;
      }
      if historyIndex > 0 {
        if outcome.Offline? {
          return Error;
        }
        historyIndex := historyIndex - 1;
        var url := history[historyIndex];
        if outcome.Failed? {
          return Error;
        }
        activePage := Some(url);
        shown := historyIndex;
        return Ok;
      }
      return NoEntry;
    }

    /** As `GoBack`, the other way; but on an empty history the code computes `len() - 1` and panics. */
    method GoForward(outcome: FetchOutcome) returns (r: Result)
      requires Valid()
      modifies this
      ensures Valid() && closed == old(closed)
      ensures r == if closed then Result.Closed
                   else if old(history) == [] then Panicked
                   else if old(historyIndex) == |old(history)| - 1 then NoEntry
                   else if outcome.Fetched? then Ok else Error
      ensures Fields() == if closed then old(Fields()) else Apply(old(Fields()), GoingForward(outcome))
    {
      if closed {
        return Result.Closed;
      }
      if history == [] {
        return Panicked;
      }
      if historyIndex < |history| - 1 {
        if outcome.Offline? {
          return Error;
        }
        historyIndex := historyIndex + 1;
        var url := history[historyIndex];
        if outcome.Failed? {
          return Error;
        }
        activePage := Some(url);
        shown := historyIndex;
        return Ok;
      }
      return NoEntry;
    }

    method Close()
      requires Valid()
      modifies this
      ensures Valid() && closed
      ensures if old(closed) then Fields() == old(Fields()) else history == [] && activePage == None
    {
      if closed {
        return;
      }
      closed := true;
      activePage := None;
      history := [];
    }
  }
}
