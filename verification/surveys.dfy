/** The survey table's state: the surveys, the adversaries and the updates
    about them, changed by three add handlers and three delete handlers.
    Each handler's HTTP exchange is abstracted to its outcome: a response
    that carries the created record or fails, or a response status. */
module Surveys {
  import opened Wrappers
  import opened Seqs
  import opened Sorting

  /** An adversary (`Adversario`); `createdAt` stands for `fechaCreacion`
      as a timestamp. */
  datatype Adversary = Adversary(id: string, name: string, party: string, description: string, createdAt: int)

  /** A news update about an adversary (`Actualizacion`). Its `kind` is the
      `tipo` string. */
  datatype Update = Update(
    id: string, adversaryId: string, adversaryName: string, message: string,
    kind: string, date: string, time: string, createdAt: int)

  /** A candidate's figures in one survey (`Candidato`). */
  datatype Candidate = Candidate(
    id: string, name: string, voteIntention: real,
    intentionVariance: real, knowledgeVariance: real, opinionVariance: real)

  /** A survey (`Encuesta`). */
  datatype Survey = Survey(
    id: string, name: string, date: string, company: string, createdAt: int,
    candidates: seq<Candidate>)

  /** The three lists the table keeps. */
  datatype State = State(surveys: seq<Survey>, adversaries: seq<Adversary>, updates: seq<Update>)

  /** The outcome of a POST: the record the server created, or a failure. */
  datatype Response<T> = Ok(record: T) | Fail

  // ---- adding ----

  /** `handleAddAdversario`: the created adversary goes first. */
  function AddAdversary(s: State, resp: Response<Adversary>): (r: State)
    ensures resp.Fail? ==> r == s
    ensures resp.Ok? ==> && r.surveys == s.surveys && r.updates == s.updates
                         && |r.adversaries| == |s.adversaries| + 1
                         && r.adversaries[0] == resp.record
                         && r.adversaries[1..] == s.adversaries
  {
    match resp
    case Ok(a) => s.(adversaries := [a] + s.adversaries)
    case Fail => s
  }

  /** `handleAddEncuesta`: the created survey goes first. */
  function AddSurvey(s: State, resp: Response<Survey>): (r: State)
    ensures resp.Fail? ==> r == s
    ensures resp.Ok? ==> && r.adversaries == s.adversaries && r.updates == s.updates
                         && |r.surveys| == |s.surveys| + 1
                         && r.surveys[0] == resp.record
                         && r.surveys[1..] == s.surveys
  {
    match resp
    case Ok(e) => s.(surveys := [e] + s.surveys)
    case Fail => s
  }

  /** What the update form submits: an update without id, creation time or
      adversary name. */
  datatype Draft = Draft(adversaryId: string, message: string, kind: string, date: string, time: string)

  /** What `handleAddActualizacion` posts: the draft and the adversary's name. */
  datatype Payload = Payload(
    adversaryId: string, adversaryName: string, message: string,
    kind: string, date: string, time: string)

  /** `adversarios.find(a => a.id === id)`: the first adversary with that id. */
  function FindAdversary(advs: seq<Adversary>, id: string): (r: Option<Adversary>)
    ensures r.None? <==> forall a :: a in advs ==> a.id != id
    ensures r.Some? ==> exists i :: 0 <= i < |advs| && advs[i] == r.value && r.value.id == id &&
                                    forall j :: 0 <= j < i ==> advs[j].id != id
  {
    if advs == [] then None
    else if advs[0].id == id then Some(advs[0])
    else
      var r := FindAdversary(advs[1..], id);
      if r.Some? then
        var i :| 0 <= i < |advs[1..]| && advs[1..][i] == r.value && r.value.id == id &&
                 forall j :: 0 <= j < i ==> advs[1..][j].id != id;
        assert advs[i + 1] == r.value;
        r
      else
        assert forall a :: a in advs ==> a == advs[0] || a in advs[1..];
        r
  }

  /** The payload posted for a draft, or none when its `adversarioId` names
      no adversary (the handler then returns without posting). */
  function UpdatePayload(s: State, d: Draft): (r: Option<Payload>)
    ensures r.None? <==> forall a :: a in s.adversaries ==> a.id != d.adversaryId
    ensures r.Some? ==> && r.value.adversaryId == d.adversaryId
                        && r.value.message == d.message && r.value.kind == d.kind
                        && r.value.date == d.date && r.value.time == d.time
    ensures r.Some? ==> FindAdversary(s.adversaries, d.adversaryId).Some? &&
                        r.value.adversaryName == FindAdversary(s.adversaries, d.adversaryId).value.name
  {
    match FindAdversary(s.adversaries, d.adversaryId)
    case None => None
    case Some(a) => Some(Payload(d.adversaryId, a.name, d.message, d.kind, d.date, d.time))
  }

  /** `handleAddActualizacion`: nothing happens for an unknown adversary;
      otherwise the created update goes first when the post succeeds. */
  function AddUpdate(s: State, d: Draft, resp: Response<Update>): (r: State)
    ensures UpdatePayload(s, d).None? || resp.Fail? ==> r == s
    ensures UpdatePayload(s, d).Some? && resp.Ok? ==>
      && r.surveys == s.surveys && r.adversaries == s.adversaries
      && |r.updates| == |s.updates| + 1
      && r.updates[0] == resp.record
      && r.updates[1..] == s.updates
  {
    if UpdatePayload(s, d).None? then s
    else
      match resp
      case Ok(u) => s.(updates := [u] + s.updates)
      case Fail => s
  }

  // ---- deleting ----

  /** `response.ok || response.status === 204`. */
  predicate Succeeded(status: int) {
    (200 <= status <= 299) || status == 204
  }

  /** The 204 test adds nothing: a 204 response is already `ok`. */
  lemma SucceededIsOk(status: int)
    ensures Succeeded(status) <==> 200 <= status <= 299
  {
  }

  function AdversaryKept(id: string): Adversary -> bool {
    (a: Adversary) => a.id != id
  }

  function UpdateKept(id: string): Update -> bool {
    (u: Update) => u.id != id
  }

  function UpdateOfOtherAdversary(id: string): Update -> bool {
    (u: Update) => u.adversaryId != id
  }

  function SurveyKept(id: string): Survey -> bool {
    (e: Survey) => e.id != id
  }

  /** `handleDeleteAdversario`: on success the adversaries with that id go,
      and so do the updates about them. */
  function DeleteAdversary(s: State, id: string, status: int): (r: State)
    ensures !Succeeded(status) ==> r == s
    ensures Succeeded(status) ==> r.surveys == s.surveys
    ensures Succeeded(status) ==> forall a :: a in r.adversaries <==> a in s.adversaries && a.id != id
    ensures Succeeded(status) ==> forall u :: u in r.updates <==> u in s.updates && u.adversaryId != id
  {
    if Succeeded(status) then
      State(s.surveys, Filter(s.adversaries, AdversaryKept(id)), Filter(s.updates, UpdateOfOtherAdversary(id)))
    else s
  }

  /** `handleDeleteActualizacion`. */
  function DeleteUpdate(s: State, id: string, status: int): (r: State)
    ensures !Succeeded(status) ==> r == s
    ensures Succeeded(status) ==> r.surveys == s.surveys && r.adversaries == s.adversaries
    ensures Succeeded(status) ==> forall u :: u in r.updates <==> u in s.updates && u.id != id
  {
    if Succeeded(status) then s.(updates := Filter(s.updates, UpdateKept(id))) else s
  }

  /** `handleDeleteEncuesta`. */
  function DeleteSurvey(s: State, id: string, status: int): (r: State)
    ensures !Succeeded(status) ==> r == s
    ensures Succeeded(status) ==> r.adversaries == s.adversaries && r.updates == s.updates
    ensures Succeeded(status) ==> forall e :: e in r.surveys <==> e in s.surveys && e.id != id
  {
    if Succeeded(status) then s.(surveys := Filter(s.surveys, SurveyKept(id))) else s
  }

  /** A delete keeps every other item as many times as before, and leaves the
      kept items in place: the result is a subsequence of the list. By
      `FilterIsTheOnlyFullSubsequence` these two facts fix the result. */
  lemma DeleteAdversaryKeepsOthers(s: State, id: string, status: int)
    requires Succeeded(status)
    ensures var r := DeleteAdversary(s, id, status);
      && (forall a: Adversary :: a.id != id ==> multiset(r.adversaries)[a] == multiset(s.adversaries)[a])
      && (forall u: Update :: u.adversaryId != id ==> multiset(r.updates)[u] == multiset(s.updates)[u])
    ensures var r := DeleteAdversary(s, id, status);
      InOrderOf(r.adversaries, s.adversaries) && InOrderOf(r.updates, s.updates)
    ensures var r := DeleteAdversary(s, id, status);
      IsSubsequence(r.adversaries, s.adversaries) && IsSubsequence(r.updates, s.updates)
  {
    FilterKeepsKept(s.adversaries, AdversaryKept(id));
    FilterKeepsKept(s.updates, UpdateOfOtherAdversary(id));
  }

  /** Deleting an update or a survey keeps every other one as many times as
      before, and leaves the kept ones in place. */
  lemma DeleteUpdateAndSurveyKeepOthers(s: State, id: string, status: int)
    requires Succeeded(status)
    ensures forall u: Update :: u.id != id ==>
      multiset(DeleteUpdate(s, id, status).updates)[u] == multiset(s.updates)[u]
    ensures forall e: Survey :: e.id != id ==>
      multiset(DeleteSurvey(s, id, status).surveys)[e] == multiset(s.surveys)[e]
    ensures InOrderOf(DeleteUpdate(s, id, status).updates, s.updates)
    ensures InOrderOf(DeleteSurvey(s, id, status).surveys, s.surveys)
    ensures IsSubsequence(DeleteUpdate(s, id, status).updates, s.updates)
    ensures IsSubsequence(DeleteSurvey(s, id, status).surveys, s.surveys)
  {
    DeleteUpdateKeepsOthers(s, id, status);
    DeleteSurveyKeepsOthers(s, id, status);
  }

  lemma DeleteUpdateKeepsOthers(s: State, id: string, status: int)
    requires Succeeded(status)
    ensures var r := DeleteUpdate(s, id, status).updates;
      && (forall u: Update :: u.id != id ==> multiset(r)[u] == multiset(s.updates)[u])
      && InOrderOf(r, s.updates) && IsSubsequence(r, s.updates)
  {
    FilterKeepsKept(s.updates, UpdateKept(id));
  }

  lemma DeleteSurveyKeepsOthers(s: State, id: string, status: int)
    requires Succeeded(status)
    ensures var r := DeleteSurvey(s, id, status).surveys;
      && (forall e: Survey :: e.id != id ==> multiset(r)[e] == multiset(s.surveys)[e])
      && InOrderOf(r, s.surveys) && IsSubsequence(r, s.surveys)
  {
    FilterKeepsKept(s.surveys, SurveyKept(id));
  }

  /** Deleting the same id twice is deleting it once. */
  lemma DeleteIdempotent(s: State, id: string, status: int)
    ensures DeleteAdversary(DeleteAdversary(s, id, status), id, status) == DeleteAdversary(s, id, status)
    ensures DeleteUpdate(DeleteUpdate(s, id, status), id, status) == DeleteUpdate(s, id, status)
    ensures DeleteSurvey(DeleteSurvey(s, id, status), id, status) == DeleteSurvey(s, id, status)
  {
    if Succeeded(status) {
      var r := DeleteAdversary(s, id, status);
      FilterKeepsAll(r.adversaries, AdversaryKept(id));
      FilterKeepsAll(r.updates, UpdateOfOtherAdversary(id));
      FilterKeepsAll(DeleteUpdate(s, id, status).updates, UpdateKept(id));
      FilterKeepsAll(DeleteSurvey(s, id, status).surveys, SurveyKept(id));
    }
  }

  /** Adding an adversary with a fresh id and deleting it again restores the
      state, provided no update names that id. */
  lemma AddThenDeleteAdversary(s: State, a: Adversary, status: int)
    requires Succeeded(status)
    requires forall b :: b in s.adversaries ==> b.id != a.id
    requires forall u :: u in s.updates ==> u.adversaryId != a.id
    ensures DeleteAdversary(AddAdversary(s, Ok(a)), a.id, status) == s
  {
    var t := AddAdversary(s, Ok(a));
    FilterAppend([a], s.adversaries, AdversaryKept(a.id));
    FilterKeepsAll(s.adversaries, AdversaryKept(a.id));
    FilterKeepsAll(s.updates, UpdateOfOtherAdversary(a.id));
    assert Filter([a], AdversaryKept(a.id)) == [];
  }

  /** Adding a survey with a fresh id and deleting it again restores the
      state. */
  lemma AddThenDeleteSurvey(s: State, e: Survey, status: int)
    requires Succeeded(status)
    requires forall x :: x in s.surveys ==> x.id != e.id
    ensures DeleteSurvey(AddSurvey(s, Ok(e)), e.id, status) == s
  {
    FilterAppend([e], s.surveys, SurveyKept(e.id));
    FilterKeepsAll(s.surveys, SurveyKept(e.id));
    assert Filter([e], SurveyKept(e.id)) == [];
  }

  /** Adding an update with a fresh id and deleting it again restores the
      state. */
  lemma AddThenDeleteUpdate(s: State, d: Draft, u: Update, status: int)
    requires Succeeded(status)
    requires forall x :: x in s.updates ==> x.id != u.id
    ensures DeleteUpdate(AddUpdate(s, d, Ok(u)), u.id, status) == s
  {
    var t := AddUpdate(s, d, Ok(u));
    FilterKeepsAll(s.updates, UpdateKept(u.id));
    if t != s {
      assert t.updates == [u] + s.updates;
      FilterAppend([u], s.updates, UpdateKept(u.id));
      assert Filter([u], UpdateKept(u.id)) == [];
    }
  }

  // ---- referential integrity ----

  /** Every update names an adversary that exists. */
  predicate Integrity(s: State) {
    forall u :: u in s.updates ==> exists a :: a in s.adversaries && a.id == u.adversaryId
  }

  /** The server's reply to an update post keeps the posted adversary id. */
  predicate Echoes(d: Draft, resp: Response<Update>) {
    resp.Ok? ==> resp.record.adversaryId == d.adversaryId
  }

  lemma AddAdversaryKeepsIntegrity(s: State, resp: Response<Adversary>)
    requires Integrity(s)
    ensures Integrity(AddAdversary(s, resp))
  {
    var r := AddAdversary(s, resp);
    forall u | u in r.updates
      ensures exists a :: a in r.adversaries && a.id == u.adversaryId
    {
      var a :| a in s.adversaries && a.id == u.adversaryId;
      assert a in r.adversaries;
    }
  }

  lemma AddSurveyKeepsIntegrity(s: State, resp: Response<Survey>)
    requires Integrity(s)
    ensures Integrity(AddSurvey(s, resp))
  {
  }

  lemma AddUpdateKeepsIntegrity(s: State, d: Draft, resp: Response<Update>)
    requires Integrity(s) && Echoes(d, resp)
    ensures Integrity(AddUpdate(s, d, resp))
  {
    var r := AddUpdate(s, d, resp);
    if UpdatePayload(s, d).Some? && resp.Ok? {
      var found := FindAdversary(s.adversaries, d.adversaryId).value;
      forall u | u in r.updates
        ensures exists a :: a in r.adversaries && a.id == u.adversaryId
      {
        if u == resp.record {
          assert found in r.adversaries;
        } else {
          assert u in s.updates;
        }
      }
    }
  }

  lemma DeleteAdversaryKeepsIntegrity(s: State, id: string, status: int)
    requires Integrity(s)
    ensures Integrity(DeleteAdversary(s, id, status))
  {
    var r := DeleteAdversary(s, id, status);
    if Succeeded(status) {
      forall u | u in r.updates
        ensures exists a :: a in r.adversaries && a.id == u.adversaryId
      {
        var a :| a in s.adversaries && a.id == u.adversaryId;
        assert a in r.adversaries;
      }
    }
  }

  lemma DeleteUpdateKeepsIntegrity(s: State, id: string, status: int)
    requires Integrity(s)
    ensures Integrity(DeleteUpdate(s, id, status))
  {
  }

  lemma DeleteSurveyKeepsIntegrity(s: State, id: string, status: int)
    requires Integrity(s)
    ensures Integrity(DeleteSurvey(s, id, status))
  {
  }

  /** One handler run to completion. */
  datatype Op =
    | AddAdversaryOp(adversary: Response<Adversary>)
    | AddUpdateOp(draft: Draft, update: Response<Update>)
    | AddSurveyOp(survey: Response<Survey>)
    | DeleteAdversaryOp(adversaryId: string, adversaryStatus: int)
    | DeleteUpdateOp(updateId: string, updateStatus: int)
    | DeleteSurveyOp(surveyId: string, surveyStatus: int)

  function Step(s: State, op: Op): State {
    match op
    case AddAdversaryOp(resp) => AddAdversary(s, resp)
    case AddUpdateOp(d, resp) => AddUpdate(s, d, resp)
    case AddSurveyOp(resp) => AddSurvey(s, resp)
    case DeleteAdversaryOp(id, status) => DeleteAdversary(s, id, status)
    case DeleteUpdateOp(id, status) => DeleteUpdate(s, id, status)
    case DeleteSurveyOp(id, status) => DeleteSurvey(s, id, status)
  }

  /** The handlers run one after another, each on the state the previous one
      left. */
  function Run(s: State, ops: seq<Op>): State
    decreases |ops|
  {
    if ops == [] then s else Run(Step(s, ops[0]), ops[1..])
  }

  predicate EchoesOp(op: Op) {
    op.AddUpdateOp? ==> Echoes(op.draft, op.update)
  }

  lemma StepKeepsIntegrity(s: State, op: Op)
    requires Integrity(s) && EchoesOp(op)
    ensures Integrity(Step(s, op))
  {
    match op
    case AddAdversaryOp(resp) => AddAdversaryKeepsIntegrity(s, resp);
    case AddUpdateOp(d, resp) => AddUpdateKeepsIntegrity(s, d, resp);
    case AddSurveyOp(resp) => AddSurveyKeepsIntegrity(s, resp);
    case DeleteAdversaryOp(id, status) => DeleteAdversaryKeepsIntegrity(s, id, status);
    case DeleteUpdateOp(id, status) => DeleteUpdateKeepsIntegrity(s, id, status);
    case DeleteSurveyOp(id, status) => DeleteSurveyKeepsIntegrity(s, id, status);
  }

  /** Any sequence of handlers keeps every update tied to an existing
      adversary, as long as the server echoes the adversary ids it is sent. */
  lemma {:induction false} RunKeepsIntegrity(s: State, ops: seq<Op>)
    requires Integrity(s)
    requires forall i :: 0 <= i < |ops| ==> EchoesOp(ops[i])
    ensures Integrity(Run(s, ops))
    decreases |ops|
  {
    if ops != [] {
      StepKeepsIntegrity(s, ops[0]);
      assert forall i :: 0 <= i < |ops[1..]| ==> ops[1..][i] == ops[i + 1];
      RunKeepsIntegrity(Step(s, ops[0]), ops[1..]);
    }
  }

  /** Without the echo, the invariant can break: the server answers a post
      for an existing adversary with an update naming another id. */
  lemma IntegrityNeedsEcho()
    ensures var a := Adversary("a", "A", "", "", 0);
      var s := State([], [a], []);
      var d := Draft("a", "", "neutral", "", "");
      var u := Update("u", "b", "A", "", "neutral", "", "", 0);
      Integrity(s) && !Echoes(d, Ok(u)) && !Integrity(AddUpdate(s, d, Ok(u)))
  {
    var a := Adversary("a", "A", "", "", 0);
    var s := State([], [a], []);
    var d := Draft("a", "", "neutral", "", "");
    var u := Update("u", "b", "A", "", "neutral", "", "", 0);
    assert FindAdversary(s.adversaries, "a") == Some(a);
    var r := AddUpdate(s, d, Ok(u));
    assert r.updates == [u] && r.adversaries == [a];
    assert u in r.updates;
  }

  // ---- newest updates first ----

  function NewestKey(u: Update): int {
    -u.createdAt
  }

  /** `actualizacionesOrdenadas`: a sorted copy, newest first, ties kept in
      list order. */
  function NewestFirst(us: seq<Update>): (r: seq<Update>)
    ensures multiset(r) == multiset(us)
    ensures forall i, j :: 0 <= i < j < |r| ==> r[i].createdAt >= r[j].createdAt
    ensures forall k :: WithKey(r, NewestKey, k) == WithKey(us, NewestKey, k)
  {
    var r := SortBy(us, NewestKey);
    assert forall i, j :: 0 <= i < j < |r| ==> NewestKey(r[i]) <= NewestKey(r[j]);
    r
  }

  /** Any newest-first arrangement that keeps equal times in list order is
      this one. */
  lemma NewestFirstIsUnique(us: seq<Update>, t: seq<Update>)
    requires forall i, j :: 0 <= i < j < |t| ==> t[i].createdAt >= t[j].createdAt
    requires forall k :: WithKey(t, NewestKey, k) == WithKey(us, NewestKey, k)
    ensures t == NewestFirst(us)
  {
    assert SortedBy(t, NewestKey);
    StableSortIsUnique(us, t, NewestKey);
  }

  // ---- the kind of an update ----

  /** The three kinds an update can be shown as. */
  datatype Tone = Positive | Negative | Neutral

  /** Every `tipo` other than "positiva" and "negativa" is shown as neutral. */
  function ToneOf(kind: string): Tone {
    if kind == "positiva" then Positive
    else if kind == "negativa" then Negative
    else Neutral
  }

  /** The icon components `getTipoIcon` returns. */
  datatype Icon = TrendingUp | TrendingDown | Minus

  /** `getTipoIcon`. */
  function KindIcon(kind: string): Icon {
    match kind
    case "positiva" => TrendingUp
    case "negativa" => TrendingDown
    case "neutral" => Minus
    case _ => Minus
  }

  /** `getTipoColor`: the CSS classes of the badge. */
  function KindColor(kind: string): string {
    match kind
    case "positiva" => "text-green-400 bg-green-400/10 border-green-400/20"
    case "negativa" => "text-red-400 bg-red-400/10 border-red-400/20"
    case "neutral" => "text-gray-400 bg-gray-400/10 border-gray-400/20"
    case _ => "text-gray-400 bg-gray-400/10 border-gray-400/20"
  }

  /** `getTipoLabel`. */
  function KindLabel(kind: string): string {
    match kind
    case "positiva" => "Positiva para nosotros"
    case "negativa" => "Negativa para nosotros"
    case "neutral" => "Neutral"
    case _ => "Neutral"
  }

  /** An unknown kind is shown exactly like "neutral". */
  lemma UnknownKindIsNeutral(kind: string)
    requires kind != "positiva" && kind != "negativa"
    ensures KindIcon(kind) == KindIcon("neutral")
    ensures KindColor(kind) == KindColor("neutral")
    ensures KindLabel(kind) == KindLabel("neutral")
  {
  }

  /** Two kinds get the same label exactly when they have the same tone. */
  lemma KindLabelFollowsTone(k1: string, k2: string)
    ensures KindLabel(k1) == KindLabel(k2) <==> ToneOf(k1) == ToneOf(k2)
  {
  }

  /** Two kinds get the same colour exactly when they have the same tone. */
  lemma KindColorFollowsTone(k1: string, k2: string)
    ensures KindColor(k1) == KindColor(k2) <==> ToneOf(k1) == ToneOf(k2)
  {
  }

  /** Two kinds get the same icon exactly when they have the same tone. */
  lemma KindIconFollowsTone(k1: string, k2: string)
    ensures KindIcon(k1) == KindIcon(k2) <==> ToneOf(k1) == ToneOf(k2)
  {
  }
}
