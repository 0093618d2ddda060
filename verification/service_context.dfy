/** ServiceContext: the messages gathered during one service call, and the
    queries that decide whether the call went well. */
module Service {

  datatype MessageType = Error | Warning | Info

  /** A service message; only the fields the context and its callers read. */
  datatype ServiceMessage = ServiceMessage(
    name: string,
    message: string,
    messageType: MessageType,
    displayToUser: bool,
    source: string)

  predicate IsError(m: ServiceMessage)
  {
    m.messageType == Error
  }

  /** `messages` is the append-only log; `errorMessages` is the list the last
      query stored, which nothing refreshes between queries. */
  datatype ServiceContext = ServiceContext(
    messages: seq<ServiceMessage>,
    errorMessages: seq<ServiceMessage>)

  /** The answer of a query, with the context as the query leaves it. */
  datatype Answer = Answer(context: ServiceContext, value: bool)

  function NewContext(): (c: ServiceContext)
    ensures |c.messages| == 0 && |c.errorMessages| == 0
  {
    ServiceContext([], [])
  }

  /** `addMessage`: appends, with no check and no deduplication. */
  function AddMessage(c: ServiceContext, m: ServiceMessage): (c': ServiceContext)
    ensures |c'.messages| == |c.messages| + 1
    ensures c'.messages[|c.messages|] == m
    ensures forall i :: 0 <= i < |c.messages| ==> c'.messages[i] == c.messages[i]
    ensures c'.errorMessages == c.errorMessages
  {
    c.(messages := c.messages + [m])
  }

  /** The messages of `ms` whose type is Error, in their original order. */
  function ErrorsOf(ms: seq<ServiceMessage>): (es: seq<ServiceMessage>)
    ensures |es| <= |ms|
    ensures forall m :: m in es <==> m in ms && IsError(m)
  {
    if |ms| == 0 then []
    else (if IsError(ms[0]) then [ms[0]] else []) + ErrorsOf(ms[1..])
  }

  /** The filtered list is empty exactly when no message is an Error. */
  lemma {:induction false} ErrorsOfNonEmpty(ms: seq<ServiceMessage>)
    ensures |ErrorsOf(ms)| > 0 <==> exists i :: 0 <= i < |ms| && IsError(ms[i])
  {
    if |ms| > 0 {
      ErrorsOfNonEmpty(ms[1..]);
      if !IsError(ms[0]) && exists i :: 0 <= i < |ms| && IsError(ms[i]) {
        var i :| 0 <= i < |ms| && IsError(ms[i]);
        assert ms[1..][i - 1] == ms[i];
      }
    }
  }

  /** Filtering distributes over concatenation: it keeps the Error messages of
      each part, in order, and drops or duplicates nothing. */
  lemma {:induction false} ErrorsOfAppend(a: seq<ServiceMessage>, b: seq<ServiceMessage>)
    ensures ErrorsOf(a + b) == ErrorsOf(a) + ErrorsOf(b)
  {
    if |a| > 0 {
      assert (a + b)[1..] == a[1..] + b;
      ErrorsOfAppend(a[1..], b);
    } else {
      assert a + b == b;
    }
  }

  /** A single message survives the filter exactly when it is an Error. */
  lemma ErrorsOfSingleton(m: ServiceMessage)
    ensures ErrorsOf([m]) == if IsError(m) then [m] else []
  {
  }

  /** `hasErrors`: on a non-empty log it stores the Error messages and reports
      whether there are any; on an empty log it reports false and stores nothing. */
  function HasErrors(c: ServiceContext): (q: Answer)
    ensures q.value <==> exists i :: 0 <= i < |c.messages| && IsError(c.messages[i])
    ensures q.context.messages == c.messages
    ensures |c.messages| > 0 ==> q.context.errorMessages == ErrorsOf(c.messages)
    ensures |c.messages| == 0 ==> q.context.errorMessages == c.errorMessages
  {
    if |c.messages| > 0 then
      var errors := ErrorsOf(c.messages);
      ErrorsOfNonEmpty(c.messages);
      Answer(c.(errorMessages := errors), |errors| > 0)
    else
      Answer(c, false)
  }

  /** `isGood`: the same filtering as `hasErrors`, with the answer inverted. */
  function IsGood(c: ServiceContext): (q: Answer)
    ensures q.value <==> forall i :: 0 <= i < |c.messages| ==> !IsError(c.messages[i])
    ensures q.context.messages == c.messages
    ensures |c.messages| > 0 ==> q.context.errorMessages == ErrorsOf(c.messages)
    ensures |c.messages| == 0 ==> q.context.errorMessages == c.errorMessages
  {
    if |c.messages| > 0 then
      var errors := ErrorsOf(c.messages);
      ErrorsOfNonEmpty(c.messages);
      Answer(c.(errorMessages := errors), !(|errors| > 0))
    else
      Answer(c, true)
  }

  /** For every context, `isGood` answers the negation of `hasErrors` and leaves the context in the same state. */
  lemma IsGoodIsNotHasErrors(c: ServiceContext)
    ensures IsGood(c).value == !HasErrors(c).value
    ensures IsGood(c).context == HasErrors(c).context
  {
  }

  /** The stored error list is always the Error messages of some prefix of the
      log: up to date right after a query, at worst stale by the messages added since. */
  ghost predicate Coherent(c: ServiceContext)
  {
    exists k :: 0 <= k <= |c.messages| && c.errorMessages == ErrorsOf(c.messages[..k])
  }

  lemma NewContextCoherent()
    ensures Coherent(NewContext())
  {
    assert NewContext().messages[..0] == [];
  }

  lemma AddMessageKeepsCoherent(c: ServiceContext, m: ServiceMessage)
    requires Coherent(c)
    ensures Coherent(AddMessage(c, m))
  {
    var k :| 0 <= k <= |c.messages| && c.errorMessages == ErrorsOf(c.messages[..k]);
    assert AddMessage(c, m).messages[..k] == c.messages[..k];
  }

  lemma QueriesKeepCoherent(c: ServiceContext)
    requires Coherent(c)
    ensures Coherent(HasErrors(c).context)
    ensures Coherent(IsGood(c).context)
  {
    if |c.messages| > 0 {
      assert c.messages[..|c.messages|] == c.messages;
      assert HasErrors(c).context.errorMessages == ErrorsOf(c.messages[..|c.messages|]);
    }
  }

  /** A sequence of `addMessage` calls, in order. */
  function AddAll(c: ServiceContext, ms: seq<ServiceMessage>): (c': ServiceContext)
    ensures c'.errorMessages == c.errorMessages
    decreases |ms|
  {
    if |ms| == 0 then c else AddAll(AddMessage(c, ms[0]), ms[1..])
  }

  /** Adding messages one by one appends them all, in order, after the existing ones. */
  lemma {:induction false} AddAllAppends(c: ServiceContext, ms: seq<ServiceMessage>)
    ensures AddAll(c, ms).messages == c.messages + ms
    decreases |ms|
  {
    if |ms| > 0 {
      AddAllAppends(AddMessage(c, ms[0]), ms[1..]);
      assert c.messages + [ms[0]] + ms[1..] == c.messages + ms;
    }
  }

  /** After any sequence of additions to a fresh context, `hasErrors` holds
      exactly when some added message is an Error, and `isGood` is its negation;
      in particular a context of only Warning and Info messages is good. */
  lemma QueriesAfterAdding(ms: seq<ServiceMessage>)
    ensures var c := AddAll(NewContext(), ms);
      && (HasErrors(c).value <==> exists i :: 0 <= i < |ms| && IsError(ms[i]))
      && IsGood(c).value == !HasErrors(c).value
      && HasErrors(c).context.messages == ms
  {
    AddAllAppends(NewContext(), ms);
    assert [] + ms == ms;
  }

  /** After a query on a non-empty log the stored error list is the log
      filtered to Error, and it distributes over the log's history. */
  lemma QueryRefreshesErrors(c: ServiceContext, m: ServiceMessage)
    ensures var after := HasErrors(AddMessage(c, m)).context;
      after.errorMessages == ErrorsOf(c.messages) + (if IsError(m) then [m] else [])
  {
    ErrorsOfAppend(c.messages, [m]);
    ErrorsOfSingleton(m);
  }
}
