/**
 * The backend's AI service: turning a language-model reply into a priority score, preparing the
 * daily summary, and scoring every task that has no priority yet. The language model is an
 * oracle; the prose around the data in each prompt and today's date are not modelled.
 */
module AiService {
  import opened Wrappers
  import opened JsText
  import opened JsParseInt
  import opened Seqs
  import opened StableSort
  import opened TodoItemSchema

  /** The data a prompt carries. */
  datatype Prompt =
    | PriorityPrompt(task: string, dueDate: Option<int>)
    | SummaryPrompt(taskList: string)

  /**
   * The language model: the reply text to the `n`-th call made while serving one request, or None
   * when that call throws.
   */
  type LanguageModel = (nat, Prompt) -> Option<string>

  /** The score used whenever the model gives nothing usable. */
  const DefaultPriority: int := 3

  const NoTasksMessage: string := "No tasks for today. It's a great day to plan ahead!"
  const SummaryFallback: string := "You have tasks to complete today. Stay focused and tackle them one by one!"
  const NoDueDate: string := "No due date"

  function Max(a: int, b: int): int { if a < b then b else a }
  function Min(a: int, b: int): int { if a < b then a else b }

  /** `Math.max(1, Math.min(5, n))`. */
  function Clamp(n: int): (r: int)
    ensures 1 <= r <= 5
    ensures 1 <= n <= 5 ==> r == n
    ensures n > 5 ==> r == 5
    ensures n < 1 ==> r == 1
  {
    Max(1, Min(5, n))
  }

  /**
   * The score for one model reply: the reply is trimmed and read with `parseInt`; NaN and 0 are
   * falsy and become 3; anything else is clamped to 1..5. A call that throws also gives 3.
   */
  function PriorityFromReply(reply: Option<string>): (r: int)
    ensures 1 <= r <= 5
    ensures reply.None? ==> r == DefaultPriority
  {
    match reply
    case None => DefaultPriority
    case Some(text) => Clamp(OrElse(ParseInt(Trim(text)), DefaultPriority))
  }

  /**
   * Trimming does not change what `parseInt` reads, so the score is that of the raw reply text:
   * 3 when `parseInt` gives NaN or 0, the clamped number otherwise.
   */
  lemma PriorityOfText(text: string)
    ensures !Truthy(ParseInt(text)) ==> PriorityFromReply(Some(text)) == DefaultPriority
    ensures Truthy(ParseInt(text)) ==> PriorityFromReply(Some(text)) == Clamp(ParseInt(text).value)
  {
    ParseIgnoresTrim(text);
  }

  /** `generateTaskPriority(task, dueDate)` as the `call`-th model call of a request. */
  function GenerateTaskPriority(ask: LanguageModel, call: nat, task: string, dueDate: Option<int>): (r: int)
    ensures 1 <= r <= 5
    ensures ask(call, PriorityPrompt(task, dueDate)).None? ==> r == DefaultPriority
  {
    PriorityFromReply(ask(call, PriorityPrompt(task, dueDate)))
  }

  /**
   * A reply that starts, after any whitespace, with a decimal integer `n` scores `n` clamped to
   * 1..5, except that 0 scores 3 like an unreadable reply.
   */
  lemma PriorityOfLeadingInteger(ws: string, n: int, rest: string)
    requires AllWhitespace(ws)
    requires |rest| == 0 || !IsDecimalDigit(rest[0])
    requires n == 0 ==> |rest| == 0 || (rest[0] != 'x' && rest[0] != 'X')
    ensures PriorityFromReply(Some(ws + IntToString(n) + rest)) == if n == 0 then DefaultPriority else Clamp(n)
    ensures 1 <= n <= 5 ==> PriorityFromReply(Some(ws + IntToString(n) + rest)) == n
    ensures n > 5 ==> PriorityFromReply(Some(ws + IntToString(n) + rest)) == 5
    ensures n < 0 ==> PriorityFromReply(Some(ws + IntToString(n) + rest)) == 1
  {
    ParseLeadingDecimal(ws, n, rest);
    PriorityOfText(ws + IntToString(n) + rest);
  }

  /** A reply with no digit after its whitespace and sign scores 3, the same as a failed call. */
  lemma PriorityOfUnreadableReply(text: string)
    requires |Unsigned(text)| == 0 || !IsDecimalDigit(Unsigned(text)[0])
    ensures PriorityFromReply(Some(text)) == DefaultPriority == PriorityFromReply(None)
  {
    NaNWithoutLeadingDigit(text);
    PriorityOfText(text);
  }

  /** Replies the model plausibly gives, and their scores. */
  lemma PriorityExampleInRange()
    ensures PriorityFromReply(Some(" 5\n")) == 5
  {
    assert " " + IntToString(5) + "\n" == " 5\n";
    PriorityOfLeadingInteger(" ", 5, "\n");
  }

  lemma PriorityExampleTooHigh()
    ensures PriorityFromReply(Some("7")) == 5
  {
    assert "" + IntToString(7) + "" == "7";
    PriorityOfLeadingInteger("", 7, "");
  }

  lemma PriorityExampleNegative()
    ensures PriorityFromReply(Some("-2")) == 1
  {
    assert "" + IntToString(-2) + "" == "-2";
    PriorityOfLeadingInteger("", -2, "");
  }

  lemma PriorityExampleZero()
    ensures PriorityFromReply(Some("0")) == 3
  {
    assert "" + IntToString(0) + "" == "0";
    PriorityOfLeadingInteger("", 0, "");
  }

  lemma PriorityExampleFraction()
    ensures PriorityFromReply(Some("2.9")) == 2
  {
    assert "" + IntToString(2) + ".9" == "2.9";
    PriorityOfLeadingInteger("", 2, ".9");
  }

  lemma PriorityExampleHex()
    ensures PriorityFromReply(Some("0x4")) == 4
  {
    assert "" + "" + "0x" + NatToHex(4) + "" == "0x4";
    ParseLeadingHex("", "", "0x", 4, "");
    PriorityOfText("0x4");
  }

  lemma PriorityExampleWord()
    ensures PriorityFromReply(Some("High")) == 3
  {
    assert TrimStart("High") == "High" by {
      assert !IsWhitespace("High"[0]);
    }
    assert AfterSign("High") == "High";
    PriorityOfUnreadableReply("High");
  }

  // ---------------------------------------------------------------------------------------------
  // generateDailySummary

  /** `task.aiPriority || 3`: the priority a task is ranked and shown with in the summary. */
  function SummaryPriority(t: TodoItem): int {
    OrElse(t.aiPriority, DefaultPriority)
  }

  /** The comparator `(b.aiPriority || 3) - (a.aiPriority || 3)`, as "a sorts before b". */
  function ByPriority(): (TodoItem, TodoItem) -> bool {
    (a: TodoItem, b: TodoItem) => SummaryPriority(b) - SummaryPriority(a) < 0
  }

  lemma ByPriorityIsStrictWeakOrder()
    ensures StrictWeakOrder(ByPriority())
  {
  }

  function IsPending(): TodoItem -> bool {
    (t: TodoItem) => !t.completed
  }

  /** The tasks the summary prompt lists: incomplete ones, highest priority first, at most 10. */
  function SummaryTasks(tasks: seq<TodoItem>): (r: seq<TodoItem>)
    ensures |r| <= 10
  {
    ByPriorityIsStrictWeakOrder();
    Take(Sort(Filter(tasks, IsPending()), ByPriority()), 10)
  }

  /** The due date as shown in the prompt: rendered with the locale when present. */
  function DueText(date: Option<int>, render: int -> string): string {
    match date
    case None => NoDueDate
    case Some(d) => render(d)
  }

  /** `- <task> (Priority: <aiPriority || 3>, Due: <due date or 'No due date'>)`. */
  function SummaryLine(t: TodoItem, render: int -> string): string {
    "- " + t.task + " (Priority: " + IntToString(SummaryPriority(t)) + ", Due: " + DueText(t.date, render) + ")"
  }

  function SummaryLines(tasks: seq<TodoItem>, render: int -> string): (r: seq<string>)
    ensures |r| == |tasks|
    ensures forall i :: 0 <= i < |tasks| ==> r[i] == SummaryLine(tasks[i], render)
  {
    if |tasks| == 0 then [] else [SummaryLine(tasks[0], render)] + SummaryLines(tasks[1..], render)
  }

  /** The task list sent in the summary prompt: one line per task, joined by newlines. */
  function TaskList(tasks: seq<TodoItem>, render: int -> string): string {
    Join(SummaryLines(SummaryTasks(tasks), render), '\n')
  }

  /**
   * `generateDailySummary(tasks)`: a fixed message for a missing or empty list, without asking
   * the model; otherwise the model's trimmed reply, or a fixed fallback when the call throws.
   */
  function DailySummary(tasks: Option<seq<TodoItem>>, render: int -> string, ask: LanguageModel): (r: string)
    ensures tasks.None? || |tasks.value| == 0 ==> r == NoTasksMessage
    ensures tasks.Some? && |tasks.value| > 0 ==>
      match ask(0, SummaryPrompt(TaskList(tasks.value, render)))
      case None => r == SummaryFallback
      case Some(reply) => r == Trim(reply) && (|r| == 0 || (!IsWhitespace(r[0]) && !IsWhitespace(r[|r| - 1])))
  {
    if tasks.None? || |tasks.value| == 0 then NoTasksMessage
    else
      match ask(0, SummaryPrompt(TaskList(tasks.value, render)))
      case None => SummaryFallback
      case Some(reply) => Trim(reply)
  }

  /** Two tasks are tied under the summary's comparator exactly when their priorities are equal. */
  lemma ByPriorityTies(a: TodoItem, b: TodoItem)
    ensures Tied(a, b, ByPriority()) <==> SummaryPriority(a) == SummaryPriority(b)
  {
  }

  lemma {:induction false} TiedWithTake<T>(s: seq<T>, n: nat, y: T, before: (T, T) -> bool)
    ensures TiedWith(Take(s, n), y, before) <= TiedWith(s, y, before)
  {
    var k := |Take(s, n)|;
    assert s == s[..k] + s[k..];
    TiedWithAppend(s[..k], s[k..], y, before);
  }

  /**
   * The summary lists the incomplete tasks of highest priority: at most ten, none completed,
   * in non-increasing priority, tasks of equal priority in their input order, and no task left
   * out ranks above one listed.
   */
  lemma SummaryTasksSpec(tasks: seq<TodoItem>)
    ensures var pending := Filter(tasks, IsPending());
      var r := SummaryTasks(tasks);
      && |r| == (if |pending| < 10 then |pending| else 10)
      && (forall i :: 0 <= i < |r| ==> !r[i].completed && r[i] in tasks)
      && (forall i, j :: 0 <= i < j < |r| ==> SummaryPriority(r[i]) >= SummaryPriority(r[j]))
      && (forall y :: TiedWith(r, y, ByPriority()) <= TiedWith(pending, y, ByPriority()))
      && (forall x :: x in multiset(pending) - multiset(r) ==>
            forall i :: 0 <= i < |r| ==> SummaryPriority(r[i]) >= SummaryPriority(x))
  {
    ByPriorityIsStrictWeakOrder();
    var pending := Filter(tasks, IsPending());
    var sorted := Sort(pending, ByPriority());
    SummaryTasksMembers(tasks, pending, sorted);
    SummaryTasksTies(pending, sorted);
    SummaryTasksTop(pending, sorted);
  }

  lemma SummaryTasksMembers(tasks: seq<TodoItem>, pending: seq<TodoItem>, sorted: seq<TodoItem>)
    requires pending == Filter(tasks, IsPending())
    requires multiset(sorted) == multiset(pending)
    ensures forall i :: 0 <= i < |Take(sorted, 10)| ==> !Take(sorted, 10)[i].completed && Take(sorted, 10)[i] in tasks
  {
    var r := Take(sorted, 10);
    forall i | 0 <= i < |r|
      ensures !r[i].completed && r[i] in tasks
    {
      assert r[i] == sorted[i];
      assert sorted[i] in multiset(pending);
    }
  }

  lemma SummaryTasksTies(pending: seq<TodoItem>, sorted: seq<TodoItem>)
    requires forall y :: TiedWith(sorted, y, ByPriority()) == TiedWith(pending, y, ByPriority())
    ensures forall y :: TiedWith(Take(sorted, 10), y, ByPriority()) <= TiedWith(pending, y, ByPriority())
  {
    forall y
      ensures TiedWith(Take(sorted, 10), y, ByPriority()) <= TiedWith(pending, y, ByPriority())
    {
      TiedWithTake(sorted, 10, y, ByPriority());
    }
  }

  lemma SummaryTasksTop(pending: seq<TodoItem>, sorted: seq<TodoItem>)
    requires multiset(sorted) == multiset(pending)
    requires Sorted(sorted, ByPriority())
    ensures var r := Take(sorted, 10);
      forall x :: x in multiset(pending) - multiset(r) ==>
        forall i :: 0 <= i < |r| ==> SummaryPriority(r[i]) >= SummaryPriority(x)
  {
    var r := Take(sorted, 10);
    var k := |r|;
    DropMultiset(sorted, k);
    forall x | x in multiset(pending) - multiset(r)
      ensures forall i :: 0 <= i < |r| ==> SummaryPriority(r[i]) >= SummaryPriority(x)
    {
      assert x in sorted[k..];
      var j :| k <= j < |sorted| && sorted[j] == x;
      forall i | 0 <= i < |r|
        ensures SummaryPriority(r[i]) >= SummaryPriority(x)
      {
        SortedByPriorityDominates(sorted, i, j);
      }
    }
  }

  lemma DropMultiset<T>(s: seq<T>, k: nat)
    requires k <= |s|
    ensures multiset(s) - multiset(s[..k]) == multiset(s[k..])
  {
    assert s == s[..k] + s[k..];
  }

  lemma SortedByPriorityDominates(s: seq<TodoItem>, i: nat, j: nat)
    requires Sorted(s, ByPriority()) && i < j < |s|
    ensures SummaryPriority(s[i]) >= SummaryPriority(s[j])
  {
    assert !ByPriority()(s[j], s[i]);
  }

  lemma IntToStringHasNoNewline(n: int)
    ensures '\n' !in IntToString(n)
  {
    var r := IntToString(n);
    if n < 0 {
      assert r == "-" + NatToString(-n);
      assert forall k :: 1 <= k < |r| ==> r[k] == NatToString(-n)[k - 1];
    }
    assert forall k :: 0 <= k < |r| ==> r[k] == '-' || IsDecimalDigit(r[k]);
  }

  lemma SummaryLineHasNoNewline(t: TodoItem, render: int -> string)
    requires '\n' !in t.task
    requires t.date.Some? ==> '\n' !in render(t.date.value)
    ensures '\n' !in SummaryLine(t, render)
  {
    IntToStringHasNoNewline(SummaryPriority(t));
  }

  /**
   * The prompt's task list splits back into one line per listed task, provided no task text and
   * no rendered due date contains a line break.
   */
  lemma TaskListLines(tasks: seq<TodoItem>, render: int -> string)
    requires exists i :: 0 <= i < |tasks| && !tasks[i].completed
    requires forall i :: 0 <= i < |tasks| ==> '\n' !in tasks[i].task
    requires forall i :: 0 <= i < |tasks| && tasks[i].date.Some? ==> '\n' !in render(tasks[i].date.value)
    ensures Split(TaskList(tasks, render), '\n') == SummaryLines(SummaryTasks(tasks), render)
  {
    SummaryTasksListed(tasks);
    var r := SummaryTasks(tasks);
    var lines := SummaryLines(r, render);
    forall k | 0 <= k < |lines|
      ensures '\n' !in lines[k]
    {
      assert r[k] in tasks;
      SummaryLineHasNoNewline(r[k], render);
    }
    SplitJoin(lines, '\n');
  }

  lemma SummaryTasksListed(tasks: seq<TodoItem>)
    requires exists i :: 0 <= i < |tasks| && !tasks[i].completed
    ensures |SummaryTasks(tasks)| > 0
    ensures forall k :: 0 <= k < |SummaryTasks(tasks)| ==> SummaryTasks(tasks)[k] in tasks
  {
    ByPriorityIsStrictWeakOrder();
    var pending := Filter(tasks, IsPending());
    var sorted := Sort(pending, ByPriority());
    SummaryTasksMembers(tasks, pending, sorted);
    var i :| 0 <= i < |tasks| && !tasks[i].completed;
    assert tasks[i] in pending;
    assert |sorted| == |pending| by {
      assert |multiset(sorted)| == |multiset(pending)|;
    }
  }

  /** A list of completed tasks only still asks the model, with an empty task list. */
  lemma AllCompletedStillAsks(tasks: seq<TodoItem>, render: int -> string, ask: LanguageModel)
    requires |tasks| > 0
    requires forall i :: 0 <= i < |tasks| ==> tasks[i].completed
    ensures TaskList(tasks, render) == ""
    ensures DailySummary(Some(tasks), render, ask) ==
      match ask(0, SummaryPrompt(""))
      case None => SummaryFallback
      case Some(reply) => Trim(reply)
  {
    FilterNone(tasks, IsPending());
  }

  // ---------------------------------------------------------------------------------------------
  // bulkUpdatePriorities

  /** The number of model calls the loop makes for one task: one when its `aiPriority` is falsy. */
  function Calls(t: TodoItem): nat {
    if Truthy(t.aiPriority) then 0 else 1
  }

  /** The number of tasks in `tasks` with a falsy `aiPriority`: the ones the model is asked about. */
  function Unscored(tasks: seq<TodoItem>): (n: nat)
    ensures n <= |tasks|
  {
    if |tasks| == 0 then 0 else Calls(tasks[0]) + Unscored(tasks[1..])
  }

  /**
   * `generateTaskPriority(task, dueDate)` as call number `call` of a request, seen as a function of
   * its arguments. Request handlers and the bulk loop take a scorer so that their proofs do not
   * depend on how a reply is parsed; `TaskScorer(ask)` is the service's own scorer.
   */
  type Scorer = (nat, string, Option<int>) -> int

  function TaskScorer(ask: LanguageModel): Scorer {
    (call: nat, task: string, dueDate: Option<int>) => GenerateTaskPriority(ask, call, task, dueDate)
  }

  /** Every score lies in 1..5. */
  ghost predicate ScoresInRange(score: Scorer) {
    forall call, task, dueDate :: 1 <= score(call, task, dueDate) <= 5
  }

  lemma TaskScorerInRange(ask: LanguageModel)
    ensures ScoresInRange(TaskScorer(ask))
  {
  }

  /** One step of the loop: a task with a falsy `aiPriority` gets the score of call `call`. */
  function Rescore(t: TodoItem, score: Scorer, call: nat): TodoItem {
    if Truthy(t.aiPriority) then t else t.(aiPriority := Some(score(call, t.task, t.date)))
  }

  /**
   * `bulkUpdatePriorities(tasks)`, whose first model call is call number `first` of the request:
   * each task with a falsy `aiPriority` gets a score from the next model call, every other task
   * is kept as it is.
   */
  function BulkUpdate(tasks: seq<TodoItem>, score: Scorer, first: nat): (r: seq<TodoItem>)
    ensures |r| == |tasks|
    decreases |tasks|
  {
    if |tasks| == 0 then []
    else [Rescore(tasks[0], score, first)] + BulkUpdate(tasks[1..], score, first + Calls(tasks[0]))
  }

  lemma UnscoredPrefix(tasks: seq<TodoItem>, i: nat)
    requires 1 <= i <= |tasks|
    ensures Unscored(tasks[..i]) == Calls(tasks[0]) + Unscored(tasks[1..][..i - 1])
  {
    assert tasks[..i][1..] == tasks[1..][..i - 1];
  }

  /**
   * Length and order are kept; a task with a truthy `aiPriority` is returned unchanged; every
   * other task changes only in `aiPriority`, which becomes the score of one model call, the calls
   * being numbered consecutively in list order.
   */
  lemma {:induction false} BulkUpdateSpec(tasks: seq<TodoItem>, score: Scorer, first: nat, i: nat)
    requires i < |tasks|
    ensures Truthy(tasks[i].aiPriority) ==> BulkUpdate(tasks, score, first)[i] == tasks[i]
    ensures !Truthy(tasks[i].aiPriority) ==>
      BulkUpdate(tasks, score, first)[i] == tasks[i].(aiPriority := Some(score(first + Unscored(tasks[..i]), tasks[i].task, tasks[i].date)))
    decreases i
  {
    var next := first + Calls(tasks[0]);
    var rest := BulkUpdate(tasks[1..], score, next);
    assert BulkUpdate(tasks, score, first) == [Rescore(tasks[0], score, first)] + rest;
    if i == 0 {
      assert tasks[..0] == [];
    } else {
      UnscoredPrefix(tasks, i);
      BulkUpdateSpec(tasks[1..], score, next, i - 1);
      assert tasks[1..][i - 1] == tasks[i];
    }
  }

  function IsUnscored(): TodoItem -> bool {
    (t: TodoItem) => !Truthy(t.aiPriority)
  }

  /**
   * The model is asked once per task with a falsy `aiPriority`, in list order: call number
   * `first + Unscored(tasks[..i])` is about the `Unscored(tasks[..i])`-th unscored task, which is
   * `tasks[i]`, and the loop makes `Unscored(tasks)` calls in all.
   */
  lemma {:induction false} CallsFollowListOrder(tasks: seq<TodoItem>, i: nat)
    requires i < |tasks| && !Truthy(tasks[i].aiPriority)
    ensures |Filter(tasks, IsUnscored())| == Unscored(tasks)
    ensures Unscored(tasks[..i]) < Unscored(tasks)
    ensures Filter(tasks, IsUnscored())[Unscored(tasks[..i])] == tasks[i]
    decreases i
  {
    UnscoredIsFilterLength(tasks);
    assert tasks == tasks[..i] + tasks[i..];
    FilterAppend(tasks[..i], tasks[i..], IsUnscored());
    UnscoredIsFilterLength(tasks[..i]);
    assert tasks[i..] == [tasks[i]] + tasks[i + 1..];
    FilterAppend([tasks[i]], tasks[i + 1..], IsUnscored());
  }

  lemma {:induction false} UnscoredIsFilterLength(tasks: seq<TodoItem>)
    ensures |Filter(tasks, IsUnscored())| == Unscored(tasks)
    decreases |tasks|
  {
    if |tasks| > 0 {
      UnscoredIsFilterLength(tasks[1..]);
    }
  }

  /**
   * When the scorer always answers in 1..5, every task comes out with a truthy priority, and one
   * in range wherever the input's priority was in range.
   */
  lemma BulkUpdateScoresAll(tasks: seq<TodoItem>, score: Scorer, first: nat)
    requires ScoresInRange(score)
    ensures var r := BulkUpdate(tasks, score, first);
      forall i :: 0 <= i < |r| ==>
        && Truthy(r[i].aiPriority)
        && (ValidPriority(tasks[i].aiPriority) ==> ValidPriority(r[i].aiPriority))
  {
    var r := BulkUpdate(tasks, score, first);
    forall i | 0 <= i < |r|
      ensures Truthy(r[i].aiPriority) && (ValidPriority(tasks[i].aiPriority) ==> ValidPriority(r[i].aiPriority))
    {
      BulkUpdateSpec(tasks, score, first, i);
    }
  }

  /** A list in which every task is scored is returned as it is, without asking the model. */
  lemma BulkUpdateOfScored(tasks: seq<TodoItem>, score: Scorer, first: nat)
    requires forall i :: 0 <= i < |tasks| ==> Truthy(tasks[i].aiPriority)
    ensures BulkUpdate(tasks, score, first) == tasks
    ensures Unscored(tasks) == 0
  {
    forall i | 0 <= i < |tasks|
      ensures BulkUpdate(tasks, score, first)[i] == tasks[i]
    {
      BulkUpdateSpec(tasks, score, first, i);
    }
    UnscoredIsFilterLength(tasks);
    FilterKeepsAll(tasks, IsUnscored());
    assert forall x :: x in Filter(tasks, IsUnscored()) ==> x in tasks && !Truthy(x.aiPriority);
  }

  /** Hence scoring twice is the same as scoring once: the second pass makes no model call. */
  lemma BulkUpdateIdempotent(tasks: seq<TodoItem>, score1: Scorer, first1: nat, score2: Scorer, first2: nat)
    requires ScoresInRange(score1)
    ensures var once := BulkUpdate(tasks, score1, first1);
      BulkUpdate(once, score2, first2) == once && Unscored(once) == 0
  {
    BulkUpdateScoresAll(tasks, score1, first1);
    BulkUpdateOfScored(BulkUpdate(tasks, score1, first1), score2, first2);
  }
}
