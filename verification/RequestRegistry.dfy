/** The list of outstanding requests: a table from request code to the records of that code that the vendor
    has not answered yet, with explicit allocation and release of the records. */
module RequestRegistry {
  import opened Wrappers

  type Table<T> = map<int, seq<T>>

  function Register<T>(t: Table<T>, key: int, x: T): Table<T> {
    t[key := (if key in t then t[key] else []) + [x]]
  }

  /** The first position of `x`, or the end. */
  function Find<T(==)>(s: seq<T>, x: T): (k: nat)
    ensures k <= |s| && x !in s[..k] && (k < |s| ==> s[k] == x)
  {
    if s == [] || s[0] == x then 0
    else
      var k := 1 + Find(s[1..], x);
      assert s[..k] == [s[0]] + s[1..][..k - 1];
      k
  }

  function Without<T(==)>(s: seq<T>, x: T): seq<T> {
    var k := Find(s, x);
    if k < |s| then s[..k] + s[k + 1..] else s
  }

  function Unregister<T(==)>(t: Table<T>, key: int, x: T): Table<T> {
    if key !in t then t
    else if Without(t[key], x) == [] then t - {key}
    else t[key := Without(t[key], x)]
  }

  predicate Holds<T(==)>(t: Table<T>, key: int, x: T) {
    key in t && x in t[key]
  }

  predicate NoDup<T(==)>(s: seq<T>) {
    forall i, j :: 0 <= i < j < |s| ==> s[i] != s[j]
  }

  lemma WithoutMembers<T>(s: seq<T>, x: T)
    requires NoDup(s)
    ensures NoDup(Without(s, x))
    ensures forall y :: y in Without(s, x) <==> y in s && y != x
  {
    var k, r := Find(s, x), Without(s, x);
    if k < |s| {
      forall y ensures y in r <==> y in s && y != x {
        if y in s && y != x {
          var j :| 0 <= j < |s| && s[j] == y;
          assert r[if j < k then j else j - 1] == y;
        }
        if y in r {
          var j :| 0 <= j < |r| && r[j] == y;
          assert y == s[if j < k then j else j + 1];
        }
      }
    }
  }

  /** What an unregistration leaves in the table: everything but the one pair. */
  lemma UnregisterMembers<T>(t: Table<T>, key: int, x: T)
    requires forall k | k in t :: t[k] != [] && NoDup(t[k])
    ensures var t' := Unregister(t, key, x);
            && (forall k | k in t' :: t'[k] != [] && NoDup(t'[k]))
            && (forall k, y :: Holds(t', k, y) <==> Holds(t, k, y) && !(k == key && y == x))
  {
    if key in t {
      WithoutMembers(t[key], x);
    }
  }

  // ----- runs over numbered records

  datatype Record = Record(serial: int, slotId: int, request: int)

  datatype Response = Response(id: nat, requestId: int, serial: int)

  /** `heap[id]` is the record the `id`-th successful allocation returned. */
  datatype Registry = Registry(heap: seq<Record>, table: Table<nat>, freed: seq<nat>, responses: seq<Response>)

  const EMPTY := Registry([], map[], [], [])

  /** Create: `ok` is whether malloc succeeded. Release: any pair a caller may pass. Answer: the vendor
      reports a response for a record. */
  datatype Op =
    | Create(serial: int, slotId: int, request: int, ok: bool)
    | Release(request: int, id: nat)
    | Answer(id: nat)

  function Released(r: Registry, request: int, id: nat): Registry {
    r.(table := Unregister(r.table, request, id),
       freed := if Holds(r.table, request, id) then r.freed + [id] else r.freed)
  }

  /** A vendor may only answer a record that is still allocated. */
  predicate Allowed(r: Registry, op: Op) {
    op.Answer? ==> op.id < |r.heap| && op.id !in r.freed
  }

  function Step(r: Registry, op: Op): Registry
    requires Allowed(r, op)
  {
    match op
    case Create(serial, slotId, request, ok) =>
      if ok then r.(heap := r.heap + [Record(serial, slotId, request)], table := Register(r.table, request, |r.heap|))
      else r
    case Release(request, id) => Released(r, request, id)
    case Answer(id) =>
      var request := r.heap[id].request;
      Released(r, request, id).(responses := r.responses + [Response(id, request, r.heap[id].serial)])
  }

  predicate Increasing(s: seq<nat>)
    ensures Increasing(s) ==> NoDup(s)
  {
    forall i, j :: 0 <= i < j < |s| ==> s[i] < s[j]
  }

  /** The table files exactly the allocated, unreleased records, each once, under its own request code and in
      the order of their creation. */
  ghost predicate Inv(r: Registry) {
    && (forall key | key in r.table :: r.table[key] != [] && Increasing(r.table[key]))
    && (forall key, id: nat ::
          Holds(r.table, key, id) <==> id < |r.heap| && id !in r.freed && r.heap[id].request == key)
    && NoDup(r.freed) && (forall id | id in r.freed :: id < |r.heap|)
  }

  lemma WithoutIncreasing(s: seq<nat>, x: nat)
    requires Increasing(s)
    ensures Increasing(Without(s, x))
  {
    var k, r := Find(s, x), Without(s, x);
    if k < |s| {
      forall i, j | 0 <= i < j < |r| ensures r[i] < r[j] {
        assert r[i] == s[if i < k then i else i + 1] && r[j] == s[if j < k then j else j + 1];
      }
    }
  }

  lemma ReleasedInv(r: Registry, request: int, id: nat)
    requires Inv(r)
    ensures Inv(Released(r, request, id))
  {
    var r' := Released(r, request, id);
    if Holds(r.table, request, id) {
      WithoutMembers(r.table[request], id);
      WithoutIncreasing(r.table[request], id);
      forall key, x: nat
        ensures Holds(r'.table, key, x) <==> x < |r.heap| && x !in r'.freed && r.heap[x].request == key
      {
        assert Holds(r'.table, key, x) <==> Holds(r.table, key, x) && !(key == request && x == id);
      }
    } else if request in r.table {
      assert Without(r.table[request], id) == r.table[request] by {
        WithoutMembers(r.table[request], id);
      }
      assert r'.table == r.table;
    }
  }

  lemma FiledIsOutstanding(r: Registry, key: int, id: nat)
    requires Inv(r) && Holds(r.table, key, id)
    ensures id < |r.heap| && id !in r.freed && r.heap[id].request == key
  {
  }

  lemma CreatedInv(r: Registry, rec: Record)
    requires Inv(r)
    ensures Inv(r.(heap := r.heap + [rec], table := Register(r.table, rec.request, |r.heap|)))
  {
    var id, key := |r.heap|, rec.request;
    var old', new' := if key in r.table then r.table[key] else [], Register(r.table, key, id)[key];
    forall i | 0 <= i < |old'| ensures old'[i] < id {
      FiledIsOutstanding(r, key, old'[i]);
    }
    assert new' == old' + [id] && Increasing(new');
    var r' := r.(heap := r.heap + [rec], table := Register(r.table, key, id));
    forall k: int, x: nat
      ensures Holds(r'.table, k, x) <==> x < |r'.heap| && x !in r'.freed && r'.heap[x].request == k
    {
      var h := Holds(r.table, k, x);
      assert Holds(r'.table, k, x) <==> h || (k == key && x == id);
    }
  }

  lemma StepInv(r: Registry, op: Op)
    requires Inv(r) && Allowed(r, op)
    ensures Inv(Step(r, op))
  {
    match op
    case Create(serial, slotId, request, ok) =>
      if ok {
        CreatedInv(r, Record(serial, slotId, request));
      }
    case Release(request, id) => ReleasedInv(r, request, id);
    case Answer(id) => ReleasedInv(r, r.heap[id].request, id);
  }

  predicate Legal(r: Registry, ops: seq<Op>)
    decreases ops
  {
    ops == [] || (Allowed(r, ops[0]) && Legal(Step(r, ops[0]), ops[1..]))
  }

  function Run(r: Registry, ops: seq<Op>): Registry
    requires Legal(r, ops)
    decreases ops
  {
    if ops == [] then r else Run(Step(r, ops[0]), ops[1..])
  }

  /** Every response carries the serial number and the code its record was created with. */
  predicate Faithful(r: Registry) {
    forall i :: 0 <= i < |r.responses| ==>
      var a := r.responses[i];
      a.id < |r.heap| && a.id in r.freed && a.requestId == r.heap[a.id].request && a.serial == r.heap[a.id].serial
  }

  lemma StepFaithful(r: Registry, op: Op)
    requires Inv(r) && Faithful(r) && Allowed(r, op)
    ensures Faithful(Step(r, op))
  {
    if op.Answer? {
      var held := Holds(r.table, r.heap[op.id].request, op.id);
      assert held;
    }
  }

  /** Over every run: the table stays exact, records are never changed, what is freed stays freed and is freed
      once, and responses are faithful. */
  lemma {:induction false} RunIsSafe(r: Registry, ops: seq<Op>)
    requires Inv(r) && Faithful(r) && Legal(r, ops)
    ensures Inv(Run(r, ops)) && Faithful(Run(r, ops))
    ensures r.heap <= Run(r, ops).heap && r.freed <= Run(r, ops).freed && r.responses <= Run(r, ops).responses
    decreases ops
  {
    if ops != [] {
      StepInv(r, ops[0]);
      StepFaithful(r, ops[0]);
      RunIsSafe(Step(r, ops[0]), ops[1..]);
    }
  }

  /** A record may be answered once: whatever follows, a second answer to it is never one the vendor may give. */
  lemma SecondAnswerIsNotAllowed(r: Registry, id: nat, ops: seq<Op>)
    requires Inv(r) && Faithful(r) && Allowed(r, Answer(id)) && Legal(Step(r, Answer(id)), ops)
    ensures !Allowed(Run(Step(r, Answer(id)), ops), Answer(id))
  {
    var r' := Step(r, Answer(id));
    StepInv(r, Answer(id));
    StepFaithful(r, Answer(id));
    RunIsSafe(r', ops);
    assert Holds(r.table, r.heap[id].request, id);
    assert id in r'.freed;
  }

  /** Created = outstanding + released. */
  lemma CreatedIsOutstandingOrReleased(r: Registry, id: nat)
    requires Inv(r) && id < |r.heap|
    ensures Holds(r.table, r.heap[id].request, id) <==> id !in r.freed
    ensures forall key | key in r.table && id in r.table[key] :: key == r.heap[id].request
  {
    forall key | key in r.table && id in r.table[key] ensures key == r.heap[id].request {
      assert Holds(r.table, key, id);
    }
  }

  /** A release frees its record and no other, keeps the order of the rest, and is a no-op for a pair that is
      not in the table. */
  lemma ReleaseFreesOne(r: Registry, request: int, id: nat)
    requires Inv(r)
    ensures !Holds(r.table, request, id) ==> Released(r, request, id) == r
    ensures Holds(r.table, request, id) ==>
              var r' := Released(r, request, id);
              && r'.freed == r.freed + [id] && id !in r.freed
              && (forall key | key != request :: key in r'.table <==> key in r.table)
              && (forall key | key != request && key in r.table :: r'.table[key] == r.table[key])
              && exists k :: 0 <= k < |r.table[request]| && r.table[request][k] == id
                   && (if request in r'.table then r'.table[request] else []) ==
                      r.table[request][..k] + r.table[request][k + 1..]
  {
    if !Holds(r.table, request, id) {
      if request in r.table {
        WithoutMembers(r.table[request], id);
      }
    } else {
      var k := Find(r.table[request], id);
      assert k < |r.table[request]| && r.table[request][k] == id;
    }
  }

  // ----- answers in any order

  function Creates(reqs: seq<Record>): seq<Op> {
    if reqs == [] then [] else [Create(reqs[0].serial, reqs[0].slotId, reqs[0].request, true)] + Creates(reqs[1..])
  }

  function Answers(order: seq<nat>): seq<Op> {
    if order == [] then [] else [Answer(order[0])] + Answers(order[1..])
  }

  function Expected(heap: seq<Record>, order: seq<nat>): (rs: seq<Response>)
    requires forall id | id in order :: id < |heap|
    ensures |rs| == |order|
  {
    seq(|order|, i requires 0 <= i < |order| =>
      assert order[i] in order;
      Response(order[i], heap[order[i]].request, heap[order[i]].serial))
  }

  lemma {:induction false} CreatesRun(r: Registry, reqs: seq<Record>)
    ensures Legal(r, Creates(reqs))
    ensures var r' := Run(r, Creates(reqs));
            r'.heap == r.heap + reqs && r'.freed == r.freed && r'.responses == r.responses
    decreases reqs
  {
    if reqs != [] {
      var op := Creates(reqs)[0];
      assert Creates(reqs)[1..] == Creates(reqs[1..]);
      CreatesRun(Step(r, op), reqs[1..]);
      Assoc(r.heap, [reqs[0]], reqs[1..]);
      assert [reqs[0]] + reqs[1..] == reqs;
    }
  }

  lemma ExpectedStep(heap: seq<Record>, order: seq<nat>)
    requires order != [] && forall id | id in order :: id < |heap|
    ensures order[0] in order && forall id | id in order[1..] :: id in order
    ensures Expected(heap, order) ==
            [Response(order[0], heap[order[0]].request, heap[order[0]].serial)] + Expected(heap, order[1..])
  {
    assert order[0] in order;
    assert forall id | id in order[1..] :: id in order;
  }

  ghost predicate Outstanding(r: Registry, order: seq<nat>) {
    NoDup(order) && forall id | id in order :: id < |r.heap| && id !in r.freed
  }

  lemma AnswerOne(r: Registry, order: seq<nat>)
    requires Inv(r) && Outstanding(r, order) && order != []
    ensures Allowed(r, Answer(order[0])) && Inv(Step(r, Answer(order[0])))
    ensures Outstanding(Step(r, Answer(order[0])), order[1..])
    ensures Answers(order) == [Answer(order[0])] + Answers(order[1..]) && Answers(order)[1..] == Answers(order[1..])
  {
    assert order[0] in order;
    AnswerFrees(r, order[0]);
    RestUnanswered(order, r.freed);
  }

  lemma {:induction false} AnswersLegal(r: Registry, order: seq<nat>)
    requires Inv(r) && Outstanding(r, order)
    ensures Legal(r, Answers(order)) && Run(r, Answers(order)).heap == r.heap
    decreases order
  {
    if order != [] {
      AnswerOne(r, order);
      AnswersLegal(Step(r, Answer(order[0])), order[1..]);
    }
  }

  lemma {:induction false} AnswersFree(r: Registry, order: seq<nat>)
    requires Inv(r) && Outstanding(r, order) && Legal(r, Answers(order))
    ensures Run(r, Answers(order)).freed == r.freed + order
    decreases order
  {
    if order != [] {
      AnswerOne(r, order);
      AnswerFrees(r, order[0]);
      AnswersFree(Step(r, Answer(order[0])), order[1..]);
      FreedGrows(r.freed, order);
    }
  }

  lemma FreedGrows(freed: seq<nat>, order: seq<nat>)
    requires order != []
    ensures freed + [order[0]] + order[1..] == freed + order
  {
  }

  lemma {:induction false} AnswersRespond(r: Registry, order: seq<nat>)
    requires Inv(r) && Outstanding(r, order) && Legal(r, Answers(order))
    ensures Run(r, Answers(order)).responses == r.responses + Expected(r.heap, order)
    decreases order
  {
    if order != [] {
      AnswerOne(r, order);
      ExpectedStep(r.heap, order);
      AnswersRespond(Step(r, Answer(order[0])), order[1..]);
      Assoc(r.responses, [Response(order[0], r.heap[order[0]].request, r.heap[order[0]].serial)],
             Expected(r.heap, order[1..]));
    }
  }

  lemma RestUnanswered(order: seq<nat>, freed: seq<nat>)
    requires order != [] && NoDup(order) && forall id | id in order :: id !in freed
    ensures NoDup(order[1..]) && forall id | id in order[1..] :: id in order && id !in freed + [order[0]]
  {
  }

  lemma AnswerFrees(r: Registry, id: nat)
    requires Inv(r) && id < |r.heap| && id !in r.freed
    ensures Inv(Step(r, Answer(id))) && Step(r, Answer(id)).heap == r.heap
    ensures Step(r, Answer(id)).freed == r.freed + [id]
    ensures Step(r, Answer(id)).responses == r.responses + [Response(id, r.heap[id].request, r.heap[id].serial)]
  {
    var held := Holds(r.table, r.heap[id].request, id);
    assert held;
    StepInv(r, Answer(id));
  }

  /** However the vendor orders its answers, each response carries the serial number of its own request, and
      once every request is answered nothing is left in the table. */
  lemma AnyAnswerOrder(reqs: seq<Record>, order: seq<nat>)
    requires NoDup(order) && forall id: nat :: id in order <==> id < |reqs|
    ensures Legal(EMPTY, Creates(reqs)) && Legal(Run(EMPTY, Creates(reqs)), Answers(order))
    ensures var r := Run(Run(EMPTY, Creates(reqs)), Answers(order));
            r.table == map[] && r.responses == Expected(reqs, order)
  {
    CreatesRun(EMPTY, reqs);
    RunIsSafe(EMPTY, Creates(reqs));
    var created := Run(EMPTY, Creates(reqs));
    assert created.heap == reqs;
    AnswersLegal(created, order);
    AnswersFree(created, order);
    AnswersRespond(created, order);
    RunIsSafe(created, Answers(order));
    var r := Run(created, Answers(order));
    forall key | key in r.table ensures false {
      KeyHasOutstanding(r, key);
    }
  }

  lemma KeyHasOutstanding(r: Registry, key: int)
    requires Inv(r) && key in r.table
    ensures exists id: nat :: id < |r.heap| && id !in r.freed
  {
    FiledIsOutstanding(r, key, r.table[key][0]);
  }
}
