/**
 * The form state of the score page and its submit handler: a successful
 * lookup appends one row, a failed one sets a fixed message, and either way
 * the page stops loading. The lookup itself is an input to the model.
 */
module SubmitForm {
  import opened Wrappers
  import opened OrderedMaps
  import opened ScoreTable

  const FetchErrorMessage: string := "Failed to fetch mythic score. Please try again."

  /** The page's React state: the two text inputs, the table rows, the spinner flag and the alert. */
  datatype FormState = FormState(
    realm: string,
    character: string,
    characterScores: seq<CharacterScore>,
    loading: bool,
    error: Option<string>)

  /** How the awaited score lookup settled. */
  datatype FetchOutcome = Fetched(scores: OrderedMap<real>) | FetchFailed

  /** The inputs the handler read when it started, before it awaited the lookup. */
  datatype Pending = Pending(realm: string, name: string)

  /** The state before any interaction. */
  function Initial(): (s: FormState)
    ensures s.realm == "" && s.character == "" && s.characterScores == []
    ensures !s.loading && s.error == None
  {
    FormState("", "", [], false, None)
  }

  /** Typing into the two inputs. */
  function Enter(s: FormState, realm: string, character: string): (r: FormState)
    ensures r.realm == realm && r.character == character
    ensures r.characterScores == s.characterScores && r.loading == s.loading && r.error == s.error
  {
    s.(realm := realm, character := character)
  }

  /** The part of the handler before the lookup is awaited. */
  function BeginSubmit(s: FormState): (r: (Pending, FormState))
    ensures r.0 == Pending(s.realm, s.character)
    ensures r.1.loading && r.1.error == None
    ensures r.1.characterScores == s.characterScores && r.1.realm == s.realm && r.1.character == s.character
  {
    (Pending(s.realm, s.character), s.(loading := true, error := None))
  }

  /**
   * The part of the handler after the lookup settles, applied to the state
   * current at that moment; the new row is appended to that state's rows.
   */
  function CompleteSubmit(p: Pending, s: FormState, outcome: FetchOutcome): (r: FormState)
    ensures !r.loading
    ensures outcome.Fetched? ==>
      && r.characterScores == s.characterScores + [CharacterScore(p.realm, p.name, outcome.scores)]
      && r.realm == "" && r.character == ""
      && r.error == s.error
    ensures outcome.FetchFailed? ==>
      && r.characterScores == s.characterScores
      && r.realm == s.realm && r.character == s.character
      && r.error == Some(FetchErrorMessage)
  {
    match outcome
    case Fetched(scores) =>
      s.(characterScores := s.characterScores + [CharacterScore(p.realm, p.name, scores)],
         realm := "", character := "", loading := false)
    case FetchFailed =>
      s.(error := Some(FetchErrorMessage), loading := false)
  }

  /** One whole submission, with no other state change while the lookup is pending. */
  function HandleSubmit(s: FormState, outcome: FetchOutcome): (r: FormState)
    ensures !r.loading
    ensures |r.characterScores| == |s.characterScores| + (if outcome.Fetched? then 1 else 0)
    ensures r.characterScores[..|s.characterScores|] == s.characterScores
    ensures outcome.Fetched? ==>
      && r.characterScores[|s.characterScores|] == CharacterScore(s.realm, s.character, outcome.scores)
      && r.realm == "" && r.character == ""
      && r.error == None
    ensures outcome.FetchFailed? ==>
      && r.characterScores == s.characterScores
      && r.realm == s.realm && r.character == s.character
      && r.error == Some(FetchErrorMessage)
  {
    var (p, started) := BeginSubmit(s);
    CompleteSubmit(p, started, outcome)
  }

  /** A fetched score record can join the table: it covers every column the table already has. */
  ghost predicate Fits(rows: seq<CharacterScore>, scores: OrderedMap<real>) {
    if |rows| == 0 then scores.Valid()
    else forall d :: d in rows[0].scores.keys ==> d in scores.entries
  }

  /**
   * A submission keeps the table well defined when the fetched record fits,
   * and it never changes the set of columns once there is a first row.
   */
  lemma SubmitKeepsColumns(s: FormState, outcome: FetchOutcome)
    requires Columnar(s.characterScores)
    requires outcome.Fetched? ==> Fits(s.characterScores, outcome.scores)
    ensures Columnar(HandleSubmit(s, outcome).characterScores)
    ensures |s.characterScores| > 0 ==>
      multiset(Summarize(HandleSubmit(s, outcome).characterScores).sortedDungeons) ==
      multiset(Summarize(s.characterScores).sortedDungeons)
  {
  }

  /** One attempt of a session: what was typed, and how the lookup settled. */
  datatype Attempt = Attempt(realm: string, character: string, outcome: FetchOutcome)

  /** Attempts made one after another, each settling before the next starts. */
  function Session(s: FormState, attempts: seq<Attempt>): FormState
    decreases |attempts|
  {
    if |attempts| == 0 then s
    else
      var a := attempts[|attempts| - 1];
      HandleSubmit(Enter(Session(s, attempts[..|attempts| - 1]), a.realm, a.character), a.outcome)
  }

  /** The rows the successful attempts contribute, in attempt order. */
  function Added(attempts: seq<Attempt>): (rows: seq<CharacterScore>)
    ensures |rows| <= |attempts|
    decreases |attempts|
  {
    if |attempts| == 0 then []
    else
      var a := attempts[0];
      (if a.outcome.Fetched? then [CharacterScore(a.realm, a.character, a.outcome.scores)] else [])
      + Added(attempts[1..])
  }

  /** Contributions of a split session concatenate. */
  lemma {:induction false} AddedAppend(attempts: seq<Attempt>, more: seq<Attempt>)
    ensures Added(attempts + more) == Added(attempts) + Added(more)
    decreases |attempts|
  {
    if |attempts| > 0 {
      AddedAppend(attempts[1..], more);
      assert (attempts + more)[1..] == attempts[1..] + more;
    } else {
      assert attempts + more == more;
    }
  }

  /**
   * The table only grows: after a session its rows are the rows it began with
   * followed by one row per successful attempt, in order; failed attempts add
   * nothing.
   */
  lemma {:induction false} SessionAppendsSuccesses(s: FormState, attempts: seq<Attempt>)
    ensures Session(s, attempts).characterScores == s.characterScores + Added(attempts)
    decreases |attempts|
  {
    if |attempts| > 0 {
      var n := |attempts|;
      var prior := attempts[..n - 1];
      SessionAppendsSuccesses(s, prior);
      AddedAppend(prior, [attempts[n - 1]]);
      assert attempts == prior + [attempts[n - 1]];
      var before := Enter(Session(s, prior), attempts[n - 1].realm, attempts[n - 1].character);
      var after := HandleSubmit(before, attempts[n - 1].outcome);
      var k := |before.characterScores|;
      assert after.characterScores == before.characterScores[..k] + after.characterScores[k..];
    }
  }

  /** After a non-empty session the page is idle, and the alert shows exactly when the last attempt failed. */
  lemma SessionEndsIdle(s: FormState, attempts: seq<Attempt>)
    requires |attempts| > 0
    ensures !Session(s, attempts).loading
    ensures Session(s, attempts).error == Some(FetchErrorMessage) <==> attempts[|attempts| - 1].outcome.FetchFailed?
    ensures Session(s, attempts).error == None <==> attempts[|attempts| - 1].outcome.Fetched?
  {
  }
}
