/** The scheduled roast job (server/api/cron/roast.get.ts): check the bearer
    secret, select every user with overdue pending tasks, grouped by user, and
    for each of them build the prompt, call the model and send the e-mail,
    where a failure for one user is logged and does not stop the others. */
module RoastCron {
  import opened Wrappers
  import opened Schema
  import opened Roaster

  // ---------------------------------------------------------------------
  // The overdue-target query
  // ---------------------------------------------------------------------

  /** One row of user joined with container (on the container's owner) joined
      with task (on the container of each task). */
  datatype JoinedRow = JoinedRow(
    user: User,
    containerName: string,
    title: string,
    status: Option<TaskStatus>,
    dueAt: Option<int>)

  /** A user selected for a roast, with the tasks that made them one. */
  datatype Target = Target(user: User, tasks: seq<OverdueTask>)

  /** The WHERE clause: status = 'pending' and due_at < now. A null status or
      due date makes the SQL comparison unknown, so the row is not selected. */
  predicate Qualifies(r: JoinedRow, now: int)
  {
    r.status == Some(Pending) && r.dueAt.Some? && r.dueAt.value < now
  }

  /** The rows the WHERE clause keeps, in row order. */
  function OverdueRows(rows: seq<JoinedRow>, now: int): (qs: seq<JoinedRow>)
    ensures |qs| <= |rows|
    ensures forall r :: r in qs <==> r in rows && Qualifies(r, now)
    ensures forall r :: multiset(qs)[r] == if Qualifies(r, now) then multiset(rows)[r] else 0
  {
    if rows == [] then []
    else
      var init, last := rows[..|rows| - 1], rows[|rows| - 1];
      assert rows == init + [last];
      OverdueRows(init, now) + (if Qualifies(last, now) then [last] else [])
  }

  /** The json object array_agg builds for one row. */
  function Item(r: JoinedRow): OverdueTask
  {
    OverdueTask(r.title, r.containerName)
  }

  ghost predicate RowsHaveId(qs: seq<JoinedRow>, id: string)
  {
    exists r :: r in qs && r.user.id == id
  }

  /** array_agg over the rows of one user, in row order. */
  function TasksOf(qs: seq<JoinedRow>, id: string): (ts: seq<OverdueTask>)
    ensures |ts| <= |qs|
    ensures ts == [] <==> !RowsHaveId(qs, id)
  {
    if qs == [] then []
    else
      var last := qs[|qs| - 1];
      assert forall r :: r in qs <==> r in qs[..|qs| - 1] || r == last;
      TasksOf(qs[..|qs| - 1], id) + (if last.user.id == id then [Item(last)] else [])
  }

  ghost predicate HasId(gs: seq<Target>, id: string)
  {
    exists i :: 0 <= i < |gs| && gs[i].user.id == id
  }

  ghost predicate DistinctIds(gs: seq<Target>)
  {
    forall i, j :: 0 <= i < j < |gs| ==> gs[i].user.id != gs[j].user.id
  }

  function Extend(g: Target, r: JoinedRow): Target
  {
    g.(tasks := g.tasks + [Item(r)])
  }

  /** One step of GROUP BY user.id: add the row's task to its user's group,
      or open a new group at the end for a user not seen before. */
  function AddRow(gs: seq<Target>, r: JoinedRow): seq<Target>
  {
    if gs == [] then [Target(r.user, [Item(r)])]
    else if gs[0].user.id == r.user.id then [Extend(gs[0], r)] + gs[1..]
    else [gs[0]] + AddRow(gs[1..], r)
  }

  /** GROUP BY user.id over the selected rows. SQL leaves the order of the
      groups open; here they come in the order of each user's first row. */
  function Group(qs: seq<JoinedRow>): seq<Target>
  {
    if qs == [] then [] else AddRow(Group(qs[..|qs| - 1]), qs[|qs| - 1])
  }

  /** The query of the handler. */
  function SelectTargets(rows: seq<JoinedRow>, now: int): seq<Target>
  {
    Group(OverdueRows(rows, now))
  }

  lemma {:induction false} AddRowSpec(gs: seq<Target>, r: JoinedRow)
    requires DistinctIds(gs)
    ensures var gs' := AddRow(gs, r);
      && |gs'| == (if HasId(gs, r.user.id) then |gs| else |gs| + 1)
      && (forall i :: 0 <= i < |gs| ==>
            gs'[i] == if gs[i].user.id == r.user.id then Extend(gs[i], r) else gs[i])
      && (!HasId(gs, r.user.id) ==> gs'[|gs|] == Target(r.user, [Item(r)]))
  {
    if gs == [] {
    } else if gs[0].user.id == r.user.id {
      assert HasId(gs, r.user.id);
    } else {
      var tail := gs[1..];
      assert DistinctIds(tail) by {
        forall i, j | 0 <= i < j < |tail| ensures tail[i].user.id != tail[j].user.id {
          assert tail[i] == gs[i + 1] && tail[j] == gs[j + 1];
        }
      }
      AddRowSpec(tail, r);
      HasIdPastHead(gs, r.user.id);
    }
  }

  /** Past a head of another user, an id occurs in the groups exactly when it
      occurs in the rest. */
  lemma HasIdPastHead(gs: seq<Target>, id: string)
    requires gs != [] && gs[0].user.id != id
    ensures HasId(gs, id) <==> HasId(gs[1..], id)
  {
    if HasId(gs, id) {
      HasIdInTail(gs, id);
    }
    if HasId(gs[1..], id) {
      HasIdFromTail(gs, id);
    }
  }

  lemma HasIdInTail(gs: seq<Target>, id: string)
    requires gs != [] && gs[0].user.id != id && HasId(gs, id)
    ensures HasId(gs[1..], id)
  {
    var k :| 0 <= k < |gs| && gs[k].user.id == id;
    assert gs[1..][k - 1].user.id == id;
  }

  lemma HasIdFromTail(gs: seq<Target>, id: string)
    requires gs != [] && HasId(gs[1..], id)
    ensures HasId(gs, id)
  {
    var k :| 0 <= k < |gs[1..]| && gs[1..][k].user.id == id;
    assert gs[k + 1].user.id == id;
  }

  /** What grouping the rows qs into the groups gs guarantees: one group per
      user id present in the rows, each carrying all of that user's tasks in
      row order and a user record taken from one of that user's rows. */
  ghost predicate GroupedBy(qs: seq<JoinedRow>, gs: seq<Target>)
  {
    && DistinctIds(gs)
    && (forall id :: HasId(gs, id) <==> RowsHaveId(qs, id))
    && (forall i :: 0 <= i < |gs| ==> gs[i].tasks == TasksOf(qs, gs[i].user.id))
    && (forall i :: 0 <= i < |gs| ==> exists r :: r in qs && r.user == gs[i].user)
  }

  lemma AddRowKeepsDistinct(gs: seq<Target>, r: JoinedRow)
    requires DistinctIds(gs)
    ensures DistinctIds(AddRow(gs, r))
  {
    var gs' := AddRow(gs, r);
    AddRowSpec(gs, r);
    forall i, j | 0 <= i < j < |gs'|
      ensures gs'[i].user.id != gs'[j].user.id
    {
      if j == |gs| {
        assert !HasId(gs, r.user.id);
        assert gs'[i].user.id == gs[i].user.id;
      } else {
        assert gs'[i].user.id == gs[i].user.id && gs'[j].user.id == gs[j].user.id;
      }
    }
  }

  lemma AddRowKeepsIds(qs: seq<JoinedRow>, gs: seq<Target>, r: JoinedRow, id: string)
    requires DistinctIds(gs)
    requires HasId(gs, id) <==> RowsHaveId(qs, id)
    requires HasId(gs, r.user.id) <==> RowsHaveId(qs, r.user.id)
    ensures HasId(AddRow(gs, r), id) <==> RowsHaveId(qs + [r], id)
  {
    var gs' := AddRow(gs, r);
    AddRowSpec(gs, r);
    assert forall x :: x in qs + [r] <==> x in qs || x == r;
    if HasId(gs', id) {
      var k :| 0 <= k < |gs'| && gs'[k].user.id == id;
      if k < |gs| {
        assert gs[k].user.id == id;
        assert HasId(gs, id);
      }
    }
    if RowsHaveId(qs + [r], id) {
      if RowsHaveId(qs, id) {
        assert HasId(gs, id);
        var k :| 0 <= k < |gs| && gs[k].user.id == id;
        assert gs'[k].user.id == id;
      } else {
        assert id == r.user.id && !HasId(gs, r.user.id);
        assert gs'[|gs|].user.id == id;
      }
    }
  }

  lemma AddRowKeepsTasksAt(qs: seq<JoinedRow>, gs: seq<Target>, r: JoinedRow, i: int)
    requires GroupedBy(qs, gs)
    requires 0 <= i < |AddRow(gs, r)|
    ensures AddRow(gs, r)[i].tasks == TasksOf(qs + [r], AddRow(gs, r)[i].user.id)
  {
    AddRowSpec(gs, r);
    assert (qs + [r])[..|qs|] == qs;
    if i == |gs| {
      assert !RowsHaveId(qs, r.user.id);
    }
  }

  lemma AddRowKeepsUsersAt(qs: seq<JoinedRow>, gs: seq<Target>, r: JoinedRow, i: int)
    requires GroupedBy(qs, gs)
    requires 0 <= i < |AddRow(gs, r)|
    ensures exists x :: x in qs + [r] && x.user == AddRow(gs, r)[i].user
  {
    var gs' := AddRow(gs, r);
    AddRowSpec(gs, r);
    assert r in qs + [r];
    if i < |gs| {
      assert gs'[i].user == gs[i].user;
      var x :| x in qs && x.user == gs[i].user;
      assert x in qs + [r];
    }
  }

  lemma AddRowKeepsTasks(qs: seq<JoinedRow>, gs: seq<Target>, r: JoinedRow)
    requires GroupedBy(qs, gs)
    ensures var gs' := AddRow(gs, r);
      && (forall i :: 0 <= i < |gs'| ==> gs'[i].tasks == TasksOf(qs + [r], gs'[i].user.id))
      && (forall i :: 0 <= i < |gs'| ==> exists x :: x in qs + [r] && x.user == gs'[i].user)
  {
    var gs' := AddRow(gs, r);
    forall i | 0 <= i < |gs'|
      ensures gs'[i].tasks == TasksOf(qs + [r], gs'[i].user.id)
      ensures exists x :: x in qs + [r] && x.user == gs'[i].user
    {
      AddRowKeepsTasksAt(qs, gs, r, i);
      AddRowKeepsUsersAt(qs, gs, r, i);
    }
  }

  lemma {:induction false} GroupSpec(qs: seq<JoinedRow>)
    ensures GroupedBy(qs, Group(qs))
  {
    if qs != [] {
      var prev, r := qs[..|qs| - 1], qs[|qs| - 1];
      assert prev + [r] == qs;
      GroupSpec(prev);
      assert Group(qs) == AddRow(Group(prev), r);
      AddRowKeepsDistinct(Group(prev), r);
      forall id
        ensures HasId(Group(qs), id) <==> RowsHaveId(qs, id)
      {
        AddRowKeepsIds(prev, Group(prev), r, id);
      }
      AddRowKeepsTasks(prev, Group(prev), r);
    }
  }

  /** The handler's query selects each user who owns a pending task due
      strictly before now (a null due date never counts) exactly once, and
      with all of that user's overdue tasks. */
  lemma SelectTargetsSpec(rows: seq<JoinedRow>, now: int)
    ensures var ts := SelectTargets(rows, now);
      && DistinctIds(ts)
      && (forall id :: HasId(ts, id) <==>
            exists r :: r in rows && r.user.id == id &&
              r.status == Some(Pending) && r.dueAt.Some? && r.dueAt.value < now)
      && (forall i :: 0 <= i < |ts| ==>
            ts[i].tasks != [] && ts[i].tasks == TasksOf(OverdueRows(rows, now), ts[i].user.id))
  {
    var qs := OverdueRows(rows, now);
    GroupSpec(qs);
    var ts := SelectTargets(rows, now);
    forall i | 0 <= i < |ts|
      ensures ts[i].tasks != []
    {
      assert HasId(ts, ts[i].user.id);
    }
  }

  // ---------------------------------------------------------------------
  // The handler
  // ---------------------------------------------------------------------

  /** How a model call ends: it throws, or it resolves with the response's
      text, which is undefined (None) when the response carries no text. */
  datatype ModelOutcome = Threw | Resolved(text: Option<string>)

  /** The model call's outcome for the n-th target attempted, given the
      persona and material sent. */
  type ModelOracle = (nat, string, string) -> ModelOutcome

  /** The e-mail send's outcome for the n-th target attempted, given the
      recipient and the text, undefined included: false when the send throws. */
  type MailOracle = (nat, string, Option<string>) -> bool

  /** The handler's observable effects, in the order they happen. */
  datatype Effect =
    | QueryOverdue(now: int)
    | Generate(persona: string, material: string)
      /** A call of sendRoastEmail; whether it went through is the mail
          oracle's answer, reported by the closing log line. */
    | SendEmail(to: string, text: Option<string>)
    | LogRoasted(email: string)
    | LogFailed(userId: string)

  datatype Response =
    | Unauthorized(statusCode: nat, statusMessage: string)
    | Message(message: string)
    | Summary(success: bool, roastedCount: nat)
      /** The handler's promise rejects: the query failed, nothing was answered. */
    | Rejected

  const NoOverdueMessage := "No overdue tasks found."

  /** The Authorization header the handler accepts. */
  function ExpectedHeader(cronSecret: string): string
  {
    "Bearer " + cronSecret
  }

  /** The prompt the handler builds for a target. */
  function PromptFor(t: Target): RoastPrompt
  {
    BuildRoastPrompt(t.user, t.tasks)
  }

  /** The model reply for the n-th attempt, sent prompt p. */
  function Reply(n: nat, p: RoastPrompt, model: ModelOracle): ModelOutcome
  {
    model(n, p.persona, p.material)
  }

  /** Whether the n-th attempt, for target t with prompt p, went through:
      the model call resolved and the send did not throw. */
  predicate Roasted(n: nat, t: Target, p: RoastPrompt, model: ModelOracle, mail: MailOracle)
  {
    Reply(n, p, model).Resolved? && mail(n, t.user.email, Reply(n, p, model).text)
  }

  /** The log line that closes the n-th attempt. */
  function Verdict(n: nat, t: Target, p: RoastPrompt, model: ModelOracle, mail: MailOracle): Effect
  {
    if Roasted(n, t, p, model, mail) then LogRoasted(t.user.email) else LogFailed(t.user.id)
  }

  /** The effects of the n-th iteration of the loop, for target t with
      prompt p: the body of the try block, cut short at the first call that
      throws, then the log line of the try or of the catch. */
  function Attempt(n: nat, t: Target, p: RoastPrompt, model: ModelOracle, mail: MailOracle): seq<Effect>
  {
    match model(n, p.persona, p.material)
    case Threw => [Generate(p.persona, p.material), LogFailed(t.user.id)]
    case Resolved(text) =>
      [Generate(p.persona, p.material), SendEmail(t.user.email, text)] +
      (if mail(n, t.user.email, text) then [LogRoasted(t.user.email)] else [LogFailed(t.user.id)])
  }

  /** One attempt: the model call comes first; sendRoastEmail is called
      exactly when the model call resolved, with the target's address and the
      response's text, even when that text is undefined;
      one log line closes the attempt, and it reports success exactly when the
      roast went through. */
  lemma AttemptShape(n: nat, t: Target, p: RoastPrompt, model: ModelOracle, mail: MailOracle)
    ensures var es := Attempt(n, t, p, model, mail);
      && 2 <= |es| <= 3
      && es[0] == Generate(p.persona, p.material)
      && es[|es| - 1] == Verdict(n, t, p, model, mail)
      && (|es| == 3 <==> Reply(n, p, model).Resolved?)
      && (|es| == 3 ==> es[1] == SendEmail(t.user.email, Reply(n, p, model).text))
  {
  }

  /** The attempts of the loop over the targets ts, one per target and in
      order, each target's prompt built by build. */
  function Steps(ts: seq<Target>, build: Target -> RoastPrompt, model: ModelOracle, mail: MailOracle): (ss: seq<seq<Effect>>)
    ensures |ss| == |ts|
  {
    seq(|ts|, i requires 0 <= i < |ts| => Attempt(i, ts[i], build(ts[i]), model, mail))
  }

  /** The effect lists ss one after the other. */
  function Concat(ss: seq<seq<Effect>>): seq<Effect>
  {
    if ss == [] then [] else Concat(ss[..|ss| - 1]) + ss[|ss| - 1]
  }

  /** The effects of the loop over the targets ts. */
  function Run(ts: seq<Target>, build: Target -> RoastPrompt, model: ModelOracle, mail: MailOracle): seq<Effect>
  {
    Concat(Steps(ts, build, model, mail))
  }

  /** The effects of es that keep selects, in order. */
  function Filter(es: seq<Effect>, keep: Effect -> bool): (fs: seq<Effect>)
    ensures |fs| <= |es|
  {
    if es == [] then []
    else
      var last := es[|es| - 1];
      Filter(es[..|es| - 1], keep) + (if keep(last) then [last] else [])
  }

  predicate IsGenerate(e: Effect)
  {
    e.Generate?
  }

  predicate IsLog(e: Effect)
  {
    e.LogRoasted? || e.LogFailed?
  }

  lemma {:induction false} FilterConcat(a: seq<Effect>, b: seq<Effect>, keep: Effect -> bool)
    ensures Filter(a + b, keep) == Filter(a, keep) + Filter(b, keep)
  {
    if b != [] {
      var init, last := b[..|b| - 1], b[|b| - 1];
      var tail := if keep(last) then [last] else [];
      assert (a + b)[..|a + b| - 1] == a + init;
      FilterConcat(a, init, keep);
      calc {
        Filter(a + b, keep);
        Filter(a + init, keep) + tail;
        Filter(a, keep) + Filter(init, keep) + tail;
        Filter(a, keep) + (Filter(init, keep) + tail);
        Filter(a, keep) + Filter(b, keep);
      }
    } else {
      assert a + b == a;
    }
  }

  /** An attempt makes one model call and writes one log line. */
  lemma AttemptFilters(n: nat, t: Target, p: RoastPrompt, model: ModelOracle, mail: MailOracle)
    ensures Filter(Attempt(n, t, p, model, mail), IsGenerate) == [Generate(p.persona, p.material)]
    ensures Filter(Attempt(n, t, p, model, mail), IsLog) == [Verdict(n, t, p, model, mail)]
  {
    var es := Attempt(n, t, p, model, mail);
    AttemptShape(n, t, p, model, mail);
    if |es| == 2 {
      assert es == [es[0]] + [es[1]];
      FilterConcat([es[0]], [es[1]], IsGenerate);
      FilterConcat([es[0]], [es[1]], IsLog);
    } else {
      assert es == [es[0], es[1]] + [es[2]];
      assert [es[0], es[1]] == [es[0]] + [es[1]];
      FilterConcat([es[0], es[1]], [es[2]], IsGenerate);
      FilterConcat([es[0]], [es[1]], IsGenerate);
      FilterConcat([es[0], es[1]], [es[2]], IsLog);
      FilterConcat([es[0]], [es[1]], IsLog);
    }
  }

  /** An attempt calls sendRoastEmail with (to, text) exactly when the model
      call resolved with that text (undefined included) for that attempt and
      the target has address to. */
  lemma AttemptSends(n: nat, t: Target, p: RoastPrompt, model: ModelOracle, mail: MailOracle, to: string, text: Option<string>)
    ensures SendEmail(to, text) in Attempt(n, t, p, model, mail) <==>
      t.user.email == to && Reply(n, p, model) == Resolved(text)
  {
  }

  lemma ConcatSnoc(ss: seq<seq<Effect>>, k: nat)
    requires k < |ss|
    ensures Concat(ss[..k + 1]) == Concat(ss[..k]) + ss[k]
  {
    assert ss[..k + 1][..k] == ss[..k];
  }

  /** When each list yields exactly one selected effect, the selected effects
      of the lists one after the other are those effects, in order. */
  lemma {:induction false} FilterEach(ss: seq<seq<Effect>>, keep: Effect -> bool, xs: seq<Effect>)
    requires |xs| == |ss|
    requires forall i :: 0 <= i < |ss| ==> Filter(ss[i], keep) == [xs[i]]
    ensures Filter(Concat(ss), keep) == xs
  {
    if ss != [] {
      var k := |ss| - 1;
      FilterEach(ss[..k], keep, xs[..k]);
      FilterConcat(Concat(ss[..k]), ss[k], keep);
      assert xs == xs[..k] + [xs[k]];
    }
  }

  /** An effect occurs in the lists one after the other exactly when it
      occurs in one of them. */
  lemma {:induction false} InConcat(ss: seq<seq<Effect>>, e: Effect)
    ensures e in Concat(ss) <==> exists i :: 0 <= i < |ss| && e in ss[i]
  {
    if ss != [] {
      var k := |ss| - 1;
      InConcat(ss[..k], e);
      assert e in Concat(ss) <==> e in Concat(ss[..k]) || e in ss[k];
      if e in Concat(ss[..k]) {
        var i :| 0 <= i < k && e in ss[..k][i];
        assert e in ss[i];
      }
      if exists i :: 0 <= i < |ss| && e in ss[i] {
        var i :| 0 <= i < |ss| && e in ss[i];
        if i < k {
          assert e in ss[..k][i];
        }
      }
    }
  }

  /** The loop runs the model once for every target, in the order of the
      targets, whatever happened in the attempts before. */
  lemma RunAttemptsEveryTarget(ts: seq<Target>, build: Target -> RoastPrompt, model: ModelOracle, mail: MailOracle)
    ensures var calls := Filter(Run(ts, build, model, mail), IsGenerate);
      && |calls| == |ts|
      && forall i :: 0 <= i < |ts| ==> calls[i] == Generate(build(ts[i]).persona, build(ts[i]).material)
  {
    var ss := Steps(ts, build, model, mail);
    var xs := seq(|ts|, i requires 0 <= i < |ts| => Generate(build(ts[i]).persona, build(ts[i]).material));
    forall i | 0 <= i < |ss|
      ensures Filter(ss[i], IsGenerate) == [xs[i]]
    {
      AttemptFilters(i, ts[i], build(ts[i]), model, mail);
    }
    FilterEach(ss, IsGenerate, xs);
  }

  /** The loop writes one log line per target, in the order of the targets,
      and it reports success exactly for the targets whose roast went through. */
  lemma RunLogsEveryTarget(ts: seq<Target>, build: Target -> RoastPrompt, model: ModelOracle, mail: MailOracle)
    ensures var logs := Filter(Run(ts, build, model, mail), IsLog);
      && |logs| == |ts|
      && forall i :: 0 <= i < |ts| ==> logs[i] == Verdict(i, ts[i], build(ts[i]), model, mail)
  {
    var ss := Steps(ts, build, model, mail);
    var xs := seq(|ts|, i requires 0 <= i < |ts| => Verdict(i, ts[i], build(ts[i]), model, mail));
    forall i | 0 <= i < |ss|
      ensures Filter(ss[i], IsLog) == [xs[i]]
    {
      AttemptFilters(i, ts[i], build(ts[i]), model, mail);
    }
    FilterEach(ss, IsLog, xs);
  }

  /** The loop calls sendRoastEmail with (to, text) exactly when some target
      with address to had its model call resolve with that text; whether the
      e-mail went through is reported by the log lines. */
  lemma RunSendsExactly(ts: seq<Target>, build: Target -> RoastPrompt, model: ModelOracle, mail: MailOracle, to: string, text: Option<string>)
    ensures SendEmail(to, text) in Run(ts, build, model, mail) <==>
      exists i :: 0 <= i < |ts| && ts[i].user.email == to && Reply(i, build(ts[i]), model) == Resolved(text)
  {
    var ss := Steps(ts, build, model, mail);
    InConcat(ss, SendEmail(to, text));
    forall i | 0 <= i < |ts|
      ensures SendEmail(to, text) in ss[i] <==> ts[i].user.email == to && Reply(i, build(ts[i]), model) == Resolved(text)
    {
      AttemptSends(i, ts[i], build(ts[i]), model, mail, to, text);
    }
  }

  /** One pass of the loop body: the try block for target t with prompt p,
      and the log line of the try or of the catch. */
  method RoastOne(n: nat, t: Target, p: RoastPrompt, model: ModelOracle, mail: MailOracle)
    returns (step: seq<Effect>)
    ensures step == Attempt(n, t, p, model, mail)
  {
    step := [Generate(p.persona, p.material)];
    var reply := model(n, p.persona, p.material);
    if reply.Threw? {
      step := step + [LogFailed(t.user.id)];
    } else {
      step := step + [SendEmail(t.user.email, reply.text)];
      var sent := mail(n, t.user.email, reply.text);
      if sent {
        step := step + [LogRoasted(t.user.email)];
      } else {
        step := step + [LogFailed(t.user.id)];
      }
    }
  }

  /** The loop of the handler: every target is attempted in turn, and a
      failure in one attempt does not stop the loop. */
  method RoastEach(targets: seq<Target>, build: Target -> RoastPrompt, model: ModelOracle, mail: MailOracle)
    returns (effects: seq<Effect>)
    ensures effects == Run(targets, build, model, mail)
  {
    effects := [];
    var n := 0;
    while n < |targets|
      invariant 0 <= n <= |targets|
      invariant effects == Concat(Steps(targets, build, model, mail)[..n])
    {
      var target := targets[n];
      var step := RoastOne(n, target, build(target), model, mail);
      ConcatSnoc(Steps(targets, build, model, mail), n);
      effects := effects + step;
      n := n + 1;
    }
    assert Steps(targets, build, model, mail)[..n] == Steps(targets, build, model, mail);
  }

  /** The roast handler. The secret, the clock, the joined rows (None when
      the query rejects) and the outcomes of the model and e-mail calls are
      its inputs; the effects it performs are its second result. */
  method HandleRoast(
    authHeader: Option<string>, cronSecret: string,
    rows: Option<seq<JoinedRow>>, now: int,
    model: ModelOracle, mail: MailOracle)
    returns (response: Response, effects: seq<Effect>)
    ensures authHeader != Some(ExpectedHeader(cronSecret)) ==>
      response == Unauthorized(401, "Unauthorized") && effects == []
    ensures authHeader == Some(ExpectedHeader(cronSecret)) && rows.None? ==>
      response == Rejected && effects == [QueryOverdue(now)]
    ensures authHeader == Some(ExpectedHeader(cronSecret)) && rows.Some? && SelectTargets(rows.value, now) == [] ==>
      response == Message(NoOverdueMessage) && effects == [QueryOverdue(now)]
    ensures authHeader == Some(ExpectedHeader(cronSecret)) && rows.Some? && SelectTargets(rows.value, now) != [] ==>
      && response == Summary(true, |SelectTargets(rows.value, now)|)
      && effects == [QueryOverdue(now)] + Run(SelectTargets(rows.value, now), PromptFor, model, mail)
  {
    if authHeader != Some(ExpectedHeader(cronSecret)) {
      return Unauthorized(401, "Unauthorized"), [];
    }
    if rows.None? {
      return Rejected, [QueryOverdue(now)];
    }
    var targets := SelectTargets(rows.value, now);
    if |targets| == 0 {
      return Message(NoOverdueMessage), [QueryOverdue(now)];
    }
    var attempts := RoastEach(targets, PromptFor, model, mail);
    effects := [QueryOverdue(now)] + attempts;
    response := Summary(true, |targets|);
  }
}
