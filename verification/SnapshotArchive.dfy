// Write-once snapshot archive: any number of callers run head / put-if-absent / head / verify on a
// shared object store that never deletes.
module SnapshotArchive {
  import opened Wrappers
  import opened Digests

  datatype Location = Location(bucket: string, objectKey: string)

  datatype Input = Input(location: Location, sha256: string, bytes: int, sourceId: string)

  // What a head request shows. Objects that others stored may lack the metadata.
  datatype StoredObject = StoredObject(
    bytes: Option<int>, sha256: Option<string>, checksum: Option<seq<int>>, sourceId: Option<string>)

  datatype Evidence = Evidence(location: Location, sha256: string, bytes: int)

  datatype Mismatch = WrongBytes | WrongSha256 | WrongChecksum | WrongSource

  datatype Failure = RequestFailed | NotReadable | Mismatched(what: Mismatch)

  type Objects = map<Location, StoredObject>

  // ----- the values that are compared -----

  function ObjectOf(input: Input): StoredObject {
    StoredObject(Some(input.bytes), Some(input.sha256), Some(HexBytes(input.sha256)), Some(input.sourceId))
  }

  function VerifyArchivedObject(input: Input, head: StoredObject): Result<Evidence, Mismatch> {
    if head.bytes != Some(input.bytes) then Err(WrongBytes)
    else if head.sha256.None? || LowerCase(head.sha256.value) != input.sha256 then Err(WrongSha256)
    else if head.checksum != Some(HexBytes(input.sha256)) then Err(WrongChecksum)
    else if head.sourceId != Some(input.sourceId) then Err(WrongSource)
    else Ok(Evidence(input.location, input.sha256, input.bytes))
  }

  // The stored object carries the caller's values.
  predicate Carries(stored: StoredObject, input: Input) {
    && stored.bytes == Some(input.bytes)
    && stored.sha256.Some? && LowerCase(stored.sha256.value) == input.sha256
    && stored.checksum == Some(HexBytes(input.sha256))
    && stored.sourceId == Some(input.sourceId)
  }

  // ----- the protocol -----

  datatype Phase =
    | Starting
    | Writing                      // the first head found nothing
    | Rechecking                   // the put succeeded, or somebody else's had
    | Verifying(head: StoredObject)
    | Succeeded(evidence: Evidence)
    | Failed(reason: Failure)

  datatype Caller = Caller(input: Input, phase: Phase)

  datatype State = State(objects: Objects, callers: seq<Caller>)

  // How the request in the next step of a caller goes. A put may fail after it took effect.
  datatype Response = Normal | Error | ErrorAfterEffect

  datatype Action = Action(caller: nat, response: Response)

  function StepCaller(objects: Objects, c: Caller, response: Response): (Objects, Caller) {
    var at := c.input.location;
    match c.phase
    case Starting =>
      if response != Normal then (objects, c.(phase := Failed(RequestFailed)))
      else if at in objects then (objects, c.(phase := Verifying(objects[at])))
      else (objects, c.(phase := Writing))
    case Writing =>
      var written := if at in objects then objects else objects[at := ObjectOf(c.input)];
      if response == Error then (objects, c.(phase := Failed(RequestFailed)))
      else if response == ErrorAfterEffect then (written, c.(phase := Failed(RequestFailed)))
      else (written, c.(phase := Rechecking))
    case Rechecking =>
      if response != Normal then (objects, c.(phase := Failed(RequestFailed)))
      else if at in objects then (objects, c.(phase := Verifying(objects[at])))
      else (objects, c.(phase := Failed(NotReadable)))
    case Verifying(head) =>
      (objects,
       match VerifyArchivedObject(c.input, head)
       case Ok(evidence) => c.(phase := Succeeded(evidence))
       case Err(what) => c.(phase := Failed(Mismatched(what))))
    case _ => (objects, c)
  }

  function Step(s: State, a: Action): (next: State)
    ensures |next.callers| == |s.callers|
  {
    if a.caller < |s.callers| then
      var (objects, c) := StepCaller(s.objects, s.callers[a.caller], a.response);
      State(objects, s.callers[a.caller := c])
    else s
  }

  function Run(s: State, actions: seq<Action>): (end: State)
    ensures |end.callers| == |s.callers|
    decreases |actions|
  {
    if actions == [] then s else Run(Step(s, actions[0]), actions[1..])
  }

  ghost predicate Initial(s: State) {
    forall i :: 0 <= i < |s.callers| ==> s.callers[i].phase == Starting
  }

  // ----- what every step keeps -----

  ghost predicate CallerInvariant(objects: Objects, c: Caller) {
    var at := c.input.location;
    match c.phase
    case Rechecking => at in objects
    case Verifying(head) => at in objects && objects[at] == head
    case Succeeded(evidence) =>
      && at in objects && Carries(objects[at], c.input)
      && evidence == Evidence(at, c.input.sha256, c.input.bytes)
    case Failed(reason) =>
      && reason != NotReadable
      && (reason.Mismatched? ==> at in objects && !Carries(objects[at], c.input))
    case _ => true
  }

  // Every object was there in the beginning, or is one of the callers' own.
  ghost predicate Origin(before: Objects, s: State) {
    forall at :: at in s.objects ==>
      (at in before && s.objects[at] == before[at])
      || (exists i :: 0 <= i < |s.callers| && s.callers[i].input.location == at
                      && s.objects[at] == ObjectOf(s.callers[i].input))
  }

  ghost predicate Invariant(before: Objects, s: State) {
    && (forall i :: 0 <= i < |s.callers| ==> CallerInvariant(s.objects, s.callers[i]))
    && Origin(before, s)
  }

  ghost predicate Extends(a: Objects, b: Objects) {
    forall at :: at in a ==> at in b && b[at] == a[at]
  }

  lemma StepExtends(s: State, a: Action)
    ensures Extends(s.objects, Step(s, a).objects)
    ensures forall i :: 0 <= i < |s.callers| ==> Step(s, a).callers[i].input == s.callers[i].input
  {
  }

  lemma StepKeepsCallers(s: State, a: Action)
    requires forall i :: 0 <= i < |s.callers| ==> CallerInvariant(s.objects, s.callers[i])
    ensures var s' := Step(s, a); forall i :: 0 <= i < |s'.callers| ==> CallerInvariant(s'.objects, s'.callers[i])
  {
  }

  lemma StepKeepsOrigin(before: Objects, s: State, a: Action)
    requires Origin(before, s)
    ensures Origin(before, Step(s, a))
  {
    StepExtends(s, a);
    var s' := Step(s, a);
    forall at | at in s'.objects
      ensures (at in before && s'.objects[at] == before[at])
              || (exists i :: 0 <= i < |s'.callers| && s'.callers[i].input.location == at
                              && s'.objects[at] == ObjectOf(s'.callers[i].input))
    {
      if at !in s.objects {
        assert s'.callers[a.caller].input == s.callers[a.caller].input;
      } else if !(at in before && s.objects[at] == before[at]) {
        var i :| 0 <= i < |s.callers| && s.callers[i].input.location == at
            && s.objects[at] == ObjectOf(s.callers[i].input);
        assert s'.callers[i].input == s.callers[i].input;
      }
    }
  }

  lemma {:induction false} RunKeepsInvariant(before: Objects, s: State, actions: seq<Action>)
    requires Invariant(before, s)
    ensures Invariant(before, Run(s, actions))
    ensures Extends(s.objects, Run(s, actions).objects)
    ensures forall i :: 0 <= i < |s.callers| ==> Run(s, actions).callers[i].input == s.callers[i].input
    decreases |actions|
  {
    if actions != [] {
      StepExtends(s, actions[0]);
      StepKeepsCallers(s, actions[0]);
      StepKeepsOrigin(before, s, actions[0]);
      RunKeepsInvariant(before, Step(s, actions[0]), actions[1..]);
    }
  }

  lemma {:induction false} RunSplits(s: State, actions: seq<Action>, more: seq<Action>)
    ensures Run(s, actions + more) == Run(Run(s, actions), more)
    decreases |actions|
  {
    if actions == [] {
      assert actions + more == more;
    } else {
      assert (actions + more)[1..] == actions[1..] + more;
      RunSplits(Step(s, actions[0]), actions[1..], more);
    }
  }

  // ----- the main results, for every interleaving of any number of callers -----

  // An object goes from absent to present at most once, and never changes afterwards.
  lemma WriteOnce(s: State, actions: seq<Action>, more: seq<Action>, at: Location)
    requires Initial(s) && at in Run(s, actions).objects
    ensures at in Run(s, actions + more).objects
    ensures Run(s, actions + more).objects[at] == Run(s, actions).objects[at]
    ensures at in s.objects ==> Run(s, actions).objects[at] == s.objects[at]
  {
    RunKeepsInvariant(s.objects, s, actions);
    RunKeepsInvariant(s.objects, Run(s, actions), more);
    RunSplits(s, actions, more);
  }

  // All callers that succeed on one location agree on checksum, size and source.
  lemma SuccessfulCallersAgree(s: State, actions: seq<Action>, i: nat, j: nat)
    requires Initial(s) && i < |s.callers| && j < |s.callers|
    requires s.callers[i].input.location == s.callers[j].input.location
    requires Run(s, actions).callers[i].phase.Succeeded? && Run(s, actions).callers[j].phase.Succeeded?
    ensures var a, b := s.callers[i].input, s.callers[j].input;
            a.sha256 == b.sha256 && a.bytes == b.bytes && a.sourceId == b.sourceId
    ensures Run(s, actions).callers[i].phase == Run(s, actions).callers[j].phase
  {
    RunKeepsInvariant(s.objects, s, actions);
  }

  // A caller whose requests all went through succeeds exactly when the stored object carries its values.
  lemma OutcomeIsDecidedByStore(s: State, actions: seq<Action>, i: nat)
    requires Initial(s) && i < |s.callers|
    requires var phase := Run(s, actions).callers[i].phase;
             phase.Succeeded? || (phase.Failed? && phase.reason != RequestFailed)
    ensures var end := Run(s, actions);
            && s.callers[i].input.location in end.objects
            && (end.callers[i].phase.Succeeded?
                <==> Carries(end.objects[s.callers[i].input.location], s.callers[i].input))
  {
    RunKeepsInvariant(s.objects, s, actions);
  }

  // ----- what is compared, told by the digest -----

  // The stored object is the snapshot with this digest: its size, its spelled digest up to case, the
  // digest itself as the server's checksum, and the source.
  ghost predicate Holds(stored: StoredObject, input: Input, digest: seq<int>)
    requires IsDigest(digest)
  {
    && stored.bytes == Some(input.bytes)
    && stored.sha256.Some? && SameButCase(stored.sha256.value, HexOf(digest))
    && stored.checksum == Some(digest)
    && stored.sourceId == Some(input.sourceId)
  }

  lemma CarriesDigest(stored: StoredObject, input: Input, digest: seq<int>)
    requires IsDigest(digest) && input.sha256 == HexOf(digest)
    ensures Carries(stored, input) <==> Holds(stored, input, digest)
  {
    HexRoundTrip(digest);
    if stored.sha256.Some? {
      LowerCaseIs(stored.sha256.value, input.sha256);
    }
  }

  // What a caller with this digest writes: the digest itself, however it is spelled. Spelled in lower case,
  // it is the snapshot.
  lemma WrittenObjectHolds(input: Input, digest: seq<int>)
    requires IsDigest(digest) && SameButCase(input.sha256, HexOf(digest))
    ensures ObjectOf(input)
            == StoredObject(Some(input.bytes), Some(input.sha256), Some(digest), Some(input.sourceId))
    ensures Holds(ObjectOf(input), input, digest)
    ensures input.sha256 == HexOf(digest) <==> VerifyArchivedObject(input, ObjectOf(input)).Ok?
  {
    HexRoundTrip(digest);
    HexIgnoresCase(input.sha256, HexOf(digest));
    HexHasNoCapitals(digest);
    LowerCaseIs(input.sha256, HexOf(digest));
    if input.sha256 == HexOf(digest) {
      assert SameButCase(input.sha256, HexOf(digest));
    }
  }

  // A refusal names the first of the four values that differs, in the order size, digest, checksum, source.
  lemma MismatchIsFirst(input: Input, head: StoredObject, digest: seq<int>)
    requires IsDigest(digest) && input.sha256 == HexOf(digest)
    ensures var r := VerifyArchivedObject(input, head);
            var size := head.bytes == Some(input.bytes);
            var spelled := head.sha256.Some? && SameButCase(head.sha256.value, HexOf(digest));
            && (r.Ok? <==> Holds(head, input, digest))
            && (r.Ok? ==> r.value == Evidence(input.location, HexOf(digest), input.bytes))
            && (r == Err(WrongBytes) <==> !size)
            && (r == Err(WrongSha256) <==> size && !spelled)
            && (r == Err(WrongChecksum) <==> size && spelled && head.checksum != Some(digest))
            && (r == Err(WrongSource)
                <==> size && spelled && head.checksum == Some(digest) && head.sourceId != Some(input.sourceId))
  {
    HexRoundTrip(digest);
    if head.sha256.Some? {
      LowerCaseIs(head.sha256.value, input.sha256);
    }
  }

  // For callers that spell a digest: success is exactly the stored object holding that snapshot.
  lemma OutcomeIsDecidedByDigest(s: State, actions: seq<Action>, i: nat, digest: seq<int>)
    requires Initial(s) && i < |s.callers| && IsDigest(digest) && s.callers[i].input.sha256 == HexOf(digest)
    requires var phase := Run(s, actions).callers[i].phase;
             phase.Succeeded? || (phase.Failed? && phase.reason != RequestFailed)
    ensures var end, input := Run(s, actions), s.callers[i].input;
            && input.location in end.objects
            && (end.callers[i].phase.Succeeded? <==> Holds(end.objects[input.location], input, digest))
  {
    OutcomeIsDecidedByStore(s, actions, i);
    CarriesDigest(Run(s, actions).objects[s.callers[i].input.location], s.callers[i].input, digest);
  }

  // A caller can verify its own write exactly when it spells its checksum in lower case.
  lemma OwnWriteVerifies(input: Input)
    ensures VerifyArchivedObject(input, ObjectOf(input)).Ok? <==> LowerCase(input.sha256) == input.sha256
  {
  }

  // Callers with the same values at a location that was empty: each one whose requests go through
  // succeeds, whoever wrote - given that they spell the checksum in lower case, and only then.
  lemma SameSnapshotSucceedsForAll(s: State, actions: seq<Action>, i: nat)
    requires Initial(s) && i < |s.callers| && s.callers[i].input.location !in s.objects
    requires forall j :: 0 <= j < |s.callers| && s.callers[j].input.location == s.callers[i].input.location ==>
               s.callers[j].input == s.callers[i].input
    requires var phase := Run(s, actions).callers[i].phase;
             phase.Succeeded? || (phase.Failed? && phase.reason != RequestFailed)
    ensures Run(s, actions).callers[i].phase.Succeeded?
            <==> LowerCase(s.callers[i].input.sha256) == s.callers[i].input.sha256
  {
    RunKeepsInvariant(s.objects, s, actions);
    OwnWriteVerifies(s.callers[i].input);
  }

  // ----- failed requests -----

  // The caller waits for the answer to a head or a put.
  predicate Waits(phase: Phase) {
    phase.Starting? || phase.Writing? || phase.Rechecking?
  }

  // A request of the i-th caller went wrong at the n-th action.
  ghost predicate FailsAt(s: State, actions: seq<Action>, i: nat, n: nat)
    requires i < |s.callers|
  {
    && n < |actions| && actions[n].caller == i && actions[n].response != Normal
    && Waits(Run(s, actions[..n]).callers[i].phase)
  }

  lemma LastActionRuns(s: State, actions: seq<Action>)
    requires actions != []
    ensures Run(s, actions) == Step(Run(s, actions[..|actions| - 1]), actions[|actions| - 1])
  {
    var front, last := actions[..|actions| - 1], actions[|actions| - 1..];
    assert actions == front + last && last == [actions[|actions| - 1]] && last[1..] == [];
    RunSplits(s, front, last);
    assert Run(Step(Run(s, front), last[0]), []) == Step(Run(s, front), last[0]);
  }

  // A caller reports a failed request exactly when one of its own requests failed, also when the put
  // had taken effect all the same: only the refusal of a put because of an existing object is passed over.
  lemma {:induction false} RequestFailureIsOwn(s: State, actions: seq<Action>, i: nat)
    requires Initial(s) && i < |s.callers|
    ensures Run(s, actions).callers[i].phase == Failed(RequestFailed) <==> exists n: nat :: FailsAt(s, actions, i, n)
    decreases |actions|
  {
    if actions != [] {
      var front, last := actions[..|actions| - 1], |actions| - 1;
      RequestFailureIsOwn(s, front, i);
      LastActionRuns(s, actions);
      forall n | 0 <= n < last ensures FailsAt(s, front, i, n) <==> FailsAt(s, actions, i, n) {
        assert front[..n] == actions[..n];
      }
      assert FailsAt(s, actions, i, last)
             <==> actions[last].caller == i && actions[last].response != Normal
                  && Waits(Run(s, front).callers[i].phase);
      if n: nat :| FailsAt(s, actions, i, n) && n < last {
        assert FailsAt(s, front, i, n);
      }
      if n: nat :| FailsAt(s, front, i, n) {
        assert FailsAt(s, actions, i, n);
      }
    }
  }

  // ----- progress -----

  function StepsLeft(phase: Phase): nat {
    match phase
    case Starting => 4
    case Writing => 3
    case Rechecking => 2
    case Verifying(_) => 1
    case _ => 0
  }

  function ActionsOf(actions: seq<Action>, i: nat): nat {
    if actions == [] then 0 else (if actions[0].caller == i then 1 else 0) + ActionsOf(actions[1..], i)
  }

  lemma StepsLeftDrop(s: State, a: Action, i: nat)
    requires i < |s.callers|
    ensures var left, now := StepsLeft(s.callers[i].phase), StepsLeft(Step(s, a).callers[i].phase);
            now == 0 || (if a.caller == i then now < left else now == left)
  {
  }

  // Four steps of its own end every caller, whatever the others do in between.
  lemma {:induction false} CallersFinish(s: State, actions: seq<Action>, i: nat)
    requires i < |s.callers|
    requires ActionsOf(actions, i) >= StepsLeft(s.callers[i].phase)
    ensures StepsLeft(Run(s, actions).callers[i].phase) == 0
    decreases |actions|
  {
    if actions != [] {
      var next := Step(s, actions[0]);
      StepsLeftDrop(s, actions[0], i);
      CallersFinish(next, actions[1..], i);
    }
  }

  // ----- one caller's code, run without others in between -----

  class ObjectStore {
    var objects: Objects

    constructor (objects: Objects)
      ensures this.objects == objects
    {
      this.objects := objects;
    }

    method HeadIfPresent(at: Location, response: Response) returns (ok: bool, head: Option<StoredObject>)
      ensures ok == (response == Normal)
      ensures head == if ok && at in objects then Some(objects[at]) else None
    {
      ok := response == Normal;
      head := if ok && at in objects then Some(objects[at]) else None;
    }

    // If-None-Match: * makes the put fail with 412 when the object exists.
    method PutIfAbsent(input: Input, response: Response) returns (ok: bool)
      modifies this
      ensures ok == (response == Normal)
      ensures objects == if response == Error || input.location in old(objects) then old(objects)
                         else old(objects)[input.location := ObjectOf(input)]
    {
      if response != Error && input.location !in objects {
        objects := objects[input.location := ObjectOf(input)];
      }
      ok := response == Normal;
    }

    // The requests, up to the head that is to be verified.
    method RequestObject(input: Input, first: Response, write: Response, second: Response)
      returns (ok: bool, head: Option<StoredObject>)
      modifies this
      ensures Extends(old(objects), objects)
      ensures var start := Alone(old(objects), input, Starting);
              Alone(objects, input, Obtained(ok, head))
              == if input.location in old(objects) then Step(start, Action(0, first))
                 else Step(Step(Step(start, Action(0, first)), Action(0, write)), Action(0, second))
    {
      StepAlone(objects, input, Starting, first);
      ok, head := HeadIfPresent(input.location, first);
      if ok && head.None? {
        StepAlone(objects, input, Writing, write);
        ok := PutIfAbsent(input, write);
        StepAlone(objects, input, Rechecking, second);
        if ok {
          ok, head := HeadIfPresent(input.location, second);
        }
      }
    }

    method EnsureArchived(input: Input, first: Response, write: Response, second: Response)
      returns (r: Result<Evidence, Failure>)
      modifies this
      ensures Extends(old(objects), objects)
      ensures var phase := if r.Ok? then Succeeded(r.value) else Failed(r.error);
              var requests := if old(input.location in objects) then [Action(0, first), Action(0, Normal)]
                              else [Action(0, first), Action(0, write), Action(0, second), Action(0, Normal)];
              Run(State(old(objects), [Caller(input, Starting)]), requests) == State(objects, [Caller(input, phase)])
      // a failed request is reported; the object is written unless the put itself failed or came too late
      ensures var at, absent := input.location, old(input.location !in objects);
              && (r == Err(RequestFailed) <==> first != Normal || (absent && (write != Normal || second != Normal)))
              && objects == (if absent && first == Normal && write != Error then old(objects)[at := ObjectOf(input)]
                             else old(objects))
              && (r != Err(RequestFailed) ==>
                    at in objects && match VerifyArchivedObject(input, objects[at])
                                     case Ok(evidence) => r == Ok(evidence)
                                     case Err(what) => r == Err(Mismatched(what)))
    {
      RunAlone(Alone(objects, input, Starting), Action(0, first), Action(0, write), Action(0, second),
               Action(0, Normal));
      var ok, head := RequestObject(input, first, write, second);
      StepAlone(objects, input, Obtained(ok, head), Normal);
      r := if !ok then Err(RequestFailed)
           else if head.None? then Err(NotReadable)
           else match VerifyArchivedObject(input, head.value)
             case Ok(evidence) => Ok(evidence)
             case Err(what) => Err(Mismatched(what));
    }
  }

  // A single caller in this phase.
  function Alone(objects: Objects, input: Input, phase: Phase): State {
    State(objects, [Caller(input, phase)])
  }

  // The phase after the requests.
  function Obtained(ok: bool, head: Option<StoredObject>): Phase {
    if !ok then Failed(RequestFailed) else if head.None? then Failed(NotReadable) else Verifying(head.value)
  }

  lemma StepAlone(objects: Objects, input: Input, phase: Phase, response: Response)
    ensures var (after, c) := StepCaller(objects, Caller(input, phase), response);
            Step(Alone(objects, input, phase), Action(0, response)) == Alone(after, input, c.phase)
  {
  }

  lemma RunAlone(s: State, a: Action, b: Action, c: Action, d: Action)
    ensures Run(s, [a, d]) == Step(Step(s, a), d)
    ensures Run(s, [a, b, c, d]) == Step(Step(Step(Step(s, a), b), c), d)
  {
    RunTwo(s, a, d, []);
    assert [a, d] + [] == [a, d];
    RunTwo(s, a, b, [c, d]);
    assert [a, b] + [c, d] == [a, b, c, d];
    RunTwo(Step(Step(s, a), b), c, d, []);
    assert [c, d] + [] == [c, d];
  }

  lemma RunTwo(s: State, a: Action, b: Action, rest: seq<Action>)
    ensures Run(s, [a, b] + rest) == Run(Step(Step(s, a), b), rest)
  {
    RunFirst(s, a, [b] + rest);
    assert [a] + ([b] + rest) == [a, b] + rest;
    RunFirst(Step(s, a), b, rest);
  }

  lemma RunFirst(s: State, a: Action, actions: seq<Action>)
    ensures Run(s, [a] + actions) == Run(Step(s, a), actions)
  {
    assert ([a] + actions)[1..] == actions;
  }
}
