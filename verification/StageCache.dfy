/** The stage cache of `LocalArtifactStore`: a memo table on disk, keyed by a
    hash of the canonical text of the request. The digest, the output models and
    the producers come from outside; what is assumed of them is stated. */
module StageCache {
  import opened Orders
  import opened Results
  import opened Json
  import opened Canonical

  datatype Request = Request(stageName: string, inputs: Json, policyHash: string, componentVersion: string)

  /** The document whose canonical text is hashed into the stage key. */
  function KeyDocument(r: Request): Json {
    JObject([Member("stage_name", JString(r.stageName)), Member("inputs", r.inputs),
             Member("policy_hash", JString(r.policyHash)), Member("component_version", JString(r.componentVersion))])
  }

  /** How output values become JSON and back, and the models each is an instance
      of: its own and those its own derives from. */
  datatype Codec<!V> = Codec(isInstance: (V, string) -> bool, dump: V -> Json, load: (string, Json) -> Option<V>)

  datatype Environment<!V> = Environment(hash: string -> string, codec: Codec<V>)

  datatype Entry = Entry(
    stageKey: string, stageName: string, componentVersion: string,
    policyHash: string, outputModel: string, output: Json)

  /** What the producer does if it is invoked. */
  datatype Attempt<V> = Raises | Returns(value: V)

  datatype Call<V> = Call(request: Request, outputModel: string, attempt: Attempt<V>)

  datatype CachedResult<V> = CachedResult(value: V, stageKey: string, reused: bool)

  datatype CacheError = MetadataMismatch | InvalidOutput | ProducerRaised | WrongOutputType

  type Answer<V> = Result<CachedResult<V>, CacheError>

  function StageKey<V>(env: Environment<V>, r: Request): string {
    env.hash(CanonicalText(KeyDocument(r)))
  }

  function EntryFor<V>(env: Environment<V>, call: Call<V>, value: V): Entry {
    Entry(StageKey(env, call.request), call.request.stageName, call.request.componentVersion,
          call.request.policyHash, call.outputModel, env.codec.dump(value))
  }

  /** The answer to one call on the files as they are. */
  function AnswerOf<V>(env: Environment<V>, files: map<string, Entry>, call: Call<V>): Answer<V> {
    var key := StageKey(env, call.request);
    if key in files then
      if files[key].stageKey != key || files[key].outputModel != call.outputModel then Err(MetadataMismatch)
      else
        match env.codec.load(call.outputModel, files[key].output)
        case Some(value) => Ok(CachedResult(value, key, true))
        case None => Err(InvalidOutput)
    else
      match call.attempt
      case Raises => Err(ProducerRaised)
      case Returns(value) =>
        if !env.codec.isInstance(value, call.outputModel) then Err(WrongOutputType)
        else Ok(CachedResult(value, key, false))
  }

  /** The files after one call: one more entry when the producer delivered. */
  function FilesAfter<V>(env: Environment<V>, files: map<string, Entry>, call: Call<V>): map<string, Entry> {
    var answer := AnswerOf(env, files, call);
    if answer.Ok? && !answer.value.reused
    then files[StageKey(env, call.request) := EntryFor(env, call, answer.value.value)]
    else files
  }

  /** The store with its cache directory as mutable state. */
  class LocalArtifactStore<V> {
    const env: Environment<V>
    var files: map<string, Entry>

    constructor (env: Environment<V>)
      ensures this.env == env && files == map[]
    {
      this.env := env;
      files := map[];
    }

    method RunCached(call: Call<V>) returns (r: Answer<V>)
      modifies this`files
      ensures r == AnswerOf(env, old(files), call)
      ensures files == FilesAfter(env, old(files), call)
    {
      var key := StageKey(env, call.request);
      if key in files {
        var raw := files[key];
        if raw.stageKey != key || raw.outputModel != call.outputModel {
          return Err(MetadataMismatch);
        }
        var loaded := env.codec.load(call.outputModel, raw.output);
        if loaded.None? {
          return Err(InvalidOutput);
        }
        return Ok(CachedResult(loaded.value, key, true));
      }
      if call.attempt.Raises? {
        return Err(ProducerRaised);
      }
      var value := call.attempt.value;
      if !env.codec.isInstance(value, call.outputModel) {
        return Err(WrongOutputType);
      }
      files := files[key := EntryFor(env, call, value)];
      return Ok(CachedResult(value, key, false));
    }
  }

  /** The files when `n` calls of a run that began empty have been made. */
  function FilesAt<V>(env: Environment<V>, calls: seq<Call<V>>, n: nat): map<string, Entry>
    requires n <= |calls|
  {
    if n == 0 then map[] else FilesAfter(env, FilesAt(env, calls, n - 1), calls[n-1])
  }

  function AnswerAt<V>(env: Environment<V>, calls: seq<Call<V>>, i: nat): Answer<V>
    requires i < |calls|
  {
    AnswerOf(env, FilesAt(env, calls, i), calls[i])
  }

  /** The producer of call `i` was run and delivered. */
  predicate Produced<V>(env: Environment<V>, calls: seq<Call<V>>, i: nat)
    requires i < |calls|
  {
    AnswerAt(env, calls, i).Ok? && !AnswerAt(env, calls, i).value.reused
  }

  // ---- Keys identify requests ----

  predicate SameRequest(a: Request, b: Request) {
    && a.stageName == b.stageName && SameValue(a.inputs, b.inputs)
    && a.policyHash == b.policyHash && a.componentVersion == b.componentVersion
  }

  lemma KeyDocumentLookups(r: Request)
    ensures var m := KeyDocument(r).members;
            Lookup(m, "stage_name") == Some(JString(r.stageName)) && Lookup(m, "inputs") == Some(r.inputs)
            && Lookup(m, "policy_hash") == Some(JString(r.policyHash))
            && Lookup(m, "component_version") == Some(JString(r.componentVersion))
    ensures Keys(KeyDocument(r).members) == ["stage_name", "inputs", "policy_hash", "component_version"]
    ensures NoDup(Keys(KeyDocument(r).members))
  {
    var m := KeyDocument(r).members;
    var keys := ["stage_name", "inputs", "policy_hash", "component_version"];
    assert Keys(m) == keys;
    assert |keys[0]| == 10 && |keys[1]| == 6 && |keys[2]| == 11 && |keys[3]| == 17;
    LookupAt(m, 0);
    LookupAt(m, 1);
    LookupAt(m, 2);
    LookupAt(m, 3);
  }

  lemma SameDocument(a: Request, b: Request)
    ensures SameValue(KeyDocument(a), KeyDocument(b)) <==> SameRequest(a, b)
  {
    KeyDocumentLookups(a);
    KeyDocumentLookups(b);
    var m := KeyDocument(a).members;
    assert m[0].key == "stage_name" && m[1].key == "inputs" && m[2].key == "policy_hash" && m[3].key == "component_version";
  }

  /** No two of the texts in question have the same digest. */
  ghost predicate CollisionFree<V>(env: Environment<V>, calls: seq<Call<V>>) {
    forall i, j :: 0 <= i < |calls| && 0 <= j < |calls| && StageKey(env, calls[i].request) == StageKey(env, calls[j].request) ==>
      CanonicalText(KeyDocument(calls[i].request)) == CanonicalText(KeyDocument(calls[j].request))
  }

  predicate LoadedInputs<V>(calls: seq<Call<V>>) {
    forall i :: 0 <= i < |calls| ==> Dictionaries(calls[i].request.inputs)
  }

  /** Two calls share a cache file exactly when they make the same request. */
  lemma KeyIdentifiesRequest<V>(env: Environment<V>, calls: seq<Call<V>>, i: nat, j: nat)
    requires LoadedInputs(calls) && CollisionFree(env, calls) && i < |calls| && j < |calls|
    ensures StageKey(env, calls[i].request) == StageKey(env, calls[j].request) <==> SameRequest(calls[i].request, calls[j].request)
  {
    var a, b := calls[i].request, calls[j].request;
    KeyDocumentLookups(a);
    KeyDocumentLookups(b);
    CanonicalTextIsFaithful(KeyDocument(a), KeyDocument(b));
    SameDocument(a, b);
  }

  // ---- Entries are written once ----

  lemma CallKeepsEntries<V>(env: Environment<V>, files: map<string, Entry>, call: Call<V>)
    ensures forall k :: k in files ==> k in FilesAfter(env, files, call) && FilesAfter(env, files, call)[k] == files[k]
  {
  }

  /** Nothing ever changes or removes a stored entry. */
  lemma {:induction false} EntriesAreStable<V>(env: Environment<V>, calls: seq<Call<V>>, i: nat, j: nat)
    requires i <= j <= |calls|
    ensures forall k :: k in FilesAt(env, calls, i) ==>
              k in FilesAt(env, calls, j) && FilesAt(env, calls, j)[k] == FilesAt(env, calls, i)[k]
  {
    hide FilesAfter;
    if i < j {
      EntriesAreStable(env, calls, i, j - 1);
      CallKeepsEntries(env, FilesAt(env, calls, j - 1), calls[j-1]);
    }
  }

  /** A delivered value is on file from then on, and later hits do not produce. */
  lemma DeliveredIsStored<V>(env: Environment<V>, calls: seq<Call<V>>, i: nat, j: nat)
    requires i < j < |calls| && Produced(env, calls, i)
    requires StageKey(env, calls[i].request) == StageKey(env, calls[j].request)
    ensures !Produced(env, calls, j)
  {
    hide *;
    ProducedStores(env, calls, i);
    StoredIsNotProduced(env, calls, i + 1, j);
  }

  lemma ProducedStores<V>(env: Environment<V>, calls: seq<Call<V>>, i: nat)
    requires i < |calls| && Produced(env, calls, i)
    ensures StageKey(env, calls[i].request) in FilesAt(env, calls, i + 1)
  {
    hide StageKey, EntryFor, AnswerOf;
  }

  lemma StoredIsNotProduced<V>(env: Environment<V>, calls: seq<Call<V>>, i: nat, j: nat)
    requires i <= j < |calls| && StageKey(env, calls[j].request) in FilesAt(env, calls, i)
    ensures !Produced(env, calls, j)
  {
    EntriesAreStable(env, calls, i, j);
    hide FilesAt, StageKey;
  }

  lemma BeganEmpty<V>(env: Environment<V>, calls: seq<Call<V>>)
    ensures FilesAt(env, calls, 0) == map[]
  {
  }

  /** An entry was written by the last call or stood there before it. */
  lemma LastCall<V>(env: Environment<V>, calls: seq<Call<V>>, n: nat, key: string)
    requires 1 <= n <= |calls| && key in FilesAt(env, calls, n)
    ensures var c := calls[n-1];
            if Produced(env, calls, n - 1) && key == StageKey(env, c.request) then
              c.attempt.Returns?
              && FilesAt(env, calls, n)[key] == Entry(key, c.request.stageName, c.request.componentVersion, c.request.policyHash,
                                                      c.outputModel, env.codec.dump(c.attempt.value))
              && AnswerAt(env, calls, n - 1).value.value == c.attempt.value && env.codec.isInstance(c.attempt.value, c.outputModel)
            else key in FilesAt(env, calls, n - 1) && FilesAt(env, calls, n - 1)[key] == FilesAt(env, calls, n)[key]
  {
    hide StageKey;
  }

  /** Each entry was written by one earlier call whose producer delivered it. */
  lemma {:induction false} EntryOrigin<V>(env: Environment<V>, calls: seq<Call<V>>, n: nat, key: string) returns (j: nat)
    requires n <= |calls| && key in FilesAt(env, calls, n)
    ensures j < n && Produced(env, calls, j) && calls[j].attempt.Returns?
    ensures key == StageKey(env, calls[j].request)
    ensures var c, entry := calls[j], FilesAt(env, calls, n)[key];
            && entry.stageKey == key && entry.stageName == c.request.stageName && entry.outputModel == c.outputModel
            && entry.policyHash == c.request.policyHash && entry.componentVersion == c.request.componentVersion
            && entry.output == env.codec.dump(c.attempt.value)
    ensures AnswerAt(env, calls, j).value.value == calls[j].attempt.value
    ensures env.codec.isInstance(calls[j].attempt.value, calls[j].outputModel)
  {
    hide Produced, StageKey, EntryFor, AnswerAt, FilesAt;
    BeganEmpty(env, calls);
    LastCall(env, calls, n, key);
    if Produced(env, calls, n - 1) && key == StageKey(env, calls[n-1].request) {
      j := n - 1;
    } else {
      j := EntryOrigin(env, calls, n - 1, key);
    }
  }

  // ---- The cache refines the producers ----

  /** What is asked of the environment and the callers: producers deliver an
      instance of their declared model that survives JSON under that model, and
      equal requests agree on the model and on the value delivered. */
  ghost predicate WellBehaved<V>(env: Environment<V>, calls: seq<Call<V>>) {
    && LoadedInputs(calls) && CollisionFree(env, calls)
    && (forall i :: 0 <= i < |calls| && calls[i].attempt.Returns? ==>
          env.codec.isInstance(calls[i].attempt.value, calls[i].outputModel)
          && env.codec.load(calls[i].outputModel, env.codec.dump(calls[i].attempt.value)) == Some(calls[i].attempt.value))
    && forall i, j :: 0 <= i < |calls| && 0 <= j < |calls| && SameRequest(calls[i].request, calls[j].request) ==>
         calls[i].outputModel == calls[j].outputModel
         && (calls[i].attempt.Returns? && calls[j].attempt.Returns? ==> calls[i].attempt.value == calls[j].attempt.value)
  }

  /** Every call gets exactly what its producer would return; a producer that
      would raise is either heard or answered by an earlier equal request. */
  lemma CacheRefinesProducer<V>(env: Environment<V>, calls: seq<Call<V>>, i: nat)
    requires WellBehaved(env, calls) && i < |calls|
    ensures calls[i].attempt.Returns? ==>
              AnswerAt(env, calls, i).Ok? && AnswerAt(env, calls, i).value.value == calls[i].attempt.value
    ensures calls[i].attempt.Raises? ==>
              AnswerAt(env, calls, i) == Err(ProducerRaised)
              || exists j :: 0 <= j < i && SameRequest(calls[j].request, calls[i].request) && Produced(env, calls, j)
                   && AnswerAt(env, calls, i) == Ok(CachedResult(AnswerAt(env, calls, j).value.value, StageKey(env, calls[i].request), true))
  {
    var files, key := FilesAt(env, calls, i), StageKey(env, calls[i].request);
    if key in files {
      var j := EntryOrigin(env, calls, i, key);
      KeyIdentifiesRequest(env, calls, j, i);
    }
  }

  /** A delivered value is on file when an equal request is made later. */
  lemma KeyIsStored<V>(env: Environment<V>, calls: seq<Call<V>>, i: nat, j: nat)
    requires i < j < |calls| && Produced(env, calls, i)
    requires StageKey(env, calls[i].request) == StageKey(env, calls[j].request)
    ensures StageKey(env, calls[j].request) in FilesAt(env, calls, j)
  {
    hide *;
    ProducedStores(env, calls, i);
    EntriesAreStable(env, calls, i + 1, j);
  }

  /** A call that finds its key on file gets the value of an earlier equal request. */
  lemma HitAnswers<V>(env: Environment<V>, calls: seq<Call<V>>, j: nat) returns (k: nat)
    requires WellBehaved(env, calls) && j < |calls| && StageKey(env, calls[j].request) in FilesAt(env, calls, j)
    ensures k < j && calls[k].attempt.Returns? && SameRequest(calls[k].request, calls[j].request)
    ensures AnswerAt(env, calls, j) == Ok(CachedResult(calls[k].attempt.value, StageKey(env, calls[j].request), true))
  {
    WellBehavedParts(env, calls);
    hide *;
    k := EntryOrigin(env, calls, j, StageKey(env, calls[j].request));
    KeyIdentifiesRequest(env, calls, k, j);
    EntryAnswers(env, calls, k, j);
  }

  /** The producer of a request delivers at most once in a run: every later equal
      request is answered from the files with the value delivered then, so its
      producer is not even run. */
  lemma ProducedOnce<V>(env: Environment<V>, calls: seq<Call<V>>, i: nat, j: nat)
    requires WellBehaved(env, calls) && i < j < |calls|
    requires Produced(env, calls, i) && SameRequest(calls[i].request, calls[j].request)
    ensures StageKey(env, calls[j].request) in FilesAt(env, calls, j)
    ensures calls[i].attempt.Returns?
            && AnswerAt(env, calls, j) == Ok(CachedResult(calls[i].attempt.value, StageKey(env, calls[j].request), true))
  {
    WellBehavedParts(env, calls);
    DeliveredValue(env, calls, i);
    hide *;
    KeyIdentifiesRequest(env, calls, i, j);
    KeyIsStored(env, calls, i, j);
    var k := HitAnswers(env, calls, j);
    KeyIdentifiesRequest(env, calls, k, j);
    KeyIdentifiesRequest(env, calls, i, k);
    EqualRequestsAgree(env, calls, i, k);
  }

  lemma WellBehavedParts<V>(env: Environment<V>, calls: seq<Call<V>>)
    requires WellBehaved(env, calls)
    ensures LoadedInputs(calls) && CollisionFree(env, calls)
  {
  }

  lemma EqualRequestsAgree<V>(env: Environment<V>, calls: seq<Call<V>>, i: nat, k: nat)
    requires WellBehaved(env, calls) && i < |calls| && k < |calls| && SameRequest(calls[i].request, calls[k].request)
    requires calls[i].attempt.Returns? && calls[k].attempt.Returns?
    ensures calls[i].attempt.value == calls[k].attempt.value
  {
    hide SameRequest, LoadedInputs, CollisionFree;
  }

  lemma DeliveredValue<V>(env: Environment<V>, calls: seq<Call<V>>, i: nat)
    requires i < |calls| && Produced(env, calls, i)
    ensures calls[i].attempt.Returns? && AnswerAt(env, calls, i).value.value == calls[i].attempt.value
  {
  }

  /** An entry of an equal request answers the call. */
  lemma EntryAnswers<V>(env: Environment<V>, calls: seq<Call<V>>, k: nat, j: nat)
    requires WellBehaved(env, calls) && k < |calls| && j < |calls| && calls[k].attempt.Returns?
    requires SameRequest(calls[k].request, calls[j].request) && StageKey(env, calls[k].request) == StageKey(env, calls[j].request)
    requires var key := StageKey(env, calls[j].request);
             && key in FilesAt(env, calls, j)
             && FilesAt(env, calls, j)[key].stageKey == key && FilesAt(env, calls, j)[key].outputModel == calls[k].outputModel
             && FilesAt(env, calls, j)[key].output == env.codec.dump(calls[k].attempt.value)
    ensures AnswerAt(env, calls, j) == Ok(CachedResult(calls[k].attempt.value, StageKey(env, calls[j].request), true))
  {
    hide FilesAt, StageKey, CollisionFree, LoadedInputs, SameRequest;
  }

  /** Without the one-model-per-request discipline a hit is refused exactly when
      the entry was written for another output model. */
  lemma MismatchIsAnotherModel<V>(env: Environment<V>, calls: seq<Call<V>>, i: nat)
    requires i < |calls|
    ensures AnswerAt(env, calls, i) == Err(MetadataMismatch) <==>
              StageKey(env, calls[i].request) in FilesAt(env, calls, i)
              && exists j :: 0 <= j < i && Produced(env, calls, j) && calls[j].outputModel != calls[i].outputModel
                   && StageKey(env, calls[j].request) == StageKey(env, calls[i].request)
  {
    var files, key := FilesAt(env, calls, i), StageKey(env, calls[i].request);
    if key in files {
      var j := EntryOrigin(env, calls, i, key);
      forall k | 0 <= k < i && Produced(env, calls, k) && StageKey(env, calls[k].request) == key ensures k == j {
        if j < k {
          DeliveredIsStored(env, calls, j, k);
        } else if k < j {
          DeliveredIsStored(env, calls, k, j);
        }
      }
    }
  }
}
