/**
  Conversion of a Celery protocol-2 task message (a body triple plus a
  headers mapping) into the protocol-1 body the topology builder reads
  (`proto2_to_proto1`, `extract_proto2_headers` and `extract_proto2_embed`
  in user_tasks/utils.py).

  Message fields are Python values, modelled by `Value` together with
  Python's truth test, which `callbacks or []` and `if chained:` rely on.
  The Celery `chain(...)` object built from an embedded chain is the
  constructor `Chain`.
 */
module Protocol {

  datatype Value =
    | Null
    | Bool(b: bool)
    | Int(i: int)
    | Text(s: string)
    | List(items: seq<Value>)
    | Dict(entries: map<string, Value>)
    | Chain(tasks: Value)
    | Opaque(tag: string)

  /** Python's truth value of `v`; other objects are true. */
  predicate Truthy(v: Value) {
    match v
    case Null => false
    case Bool(b) => b
    case Int(i) => i != 0
    case Text(s) => s != ""
    case List(xs) => xs != []
    case Dict(m) => m != map[]
    case Chain(_) => true
    case Opaque(_) => true
  }

  /** The protocol-2 body: positional arguments, keyword arguments and the
      embedded options mapping. */
  datatype Body2 = Body2(args: Value, kwargs: Value, embed: map<string, Value>)

  /** Why the conversion raised: required headers were missing (TypeError,
      listing them in parameter order), or an embedded chain had to be
      appended to a `callbacks` value that is not a list (AttributeError). */
  datatype ConvertError = MissingHeaders(keys: seq<string>) | CallbacksNotList

  datatype Result<T> = Ok(value: T) | Err(error: ConvertError)

  /** The parameters of `extract_proto2_headers`, in order. */
  const HeaderKeys: seq<string> := ["id", "retries", "eta", "expires", "group", "timelimit", "task"]

  /** The parameters of `extract_proto2_embed`. */
  const EmbedKeys: set<string> := {"callbacks", "errbacks", "task_chain", "chord"}

  /** The converted protocol-1 body: one field per key of the dictionary
      `proto2_to_proto1` builds, so no other key (in particular no `chain`)
      can appear. */
  datatype Body1 = Body1(
    id: Value, task: Value, retries: Value, eta: Value, expires: Value, utc: Value,
    taskset: Value, timelimit: Value, args: Value, kwargs: Value,
    callbacks: Value, errbacks: Value, chord: Value)

  /** The dictionary `extract_proto2_headers` returns. */
  datatype Headers1 = Headers1(
    id: Value, task: Value, retries: Value, eta: Value, expires: Value, utc: Value,
    taskset: Value, timelimit: Value)

  /** The dictionary `extract_proto2_embed` returns. */
  datatype Embedded = Embedded(callbacks: Value, errbacks: Value, chain: Value, chord: Value)

  /** `m.get(k, None)`. */
  function Get(m: map<string, Value>, k: string): Value {
    if k in m then m[k] else Null
  }

  /** `v or default`. */
  function Or(v: Value, default: Value): (r: Value)
    ensures Truthy(v) ==> r == v
    ensures !Truthy(v) ==> r == default
  {
    if Truthy(v) then v else default
  }

  /** The keys of `keys` that `m` lacks, in order. */
  function Missing(m: map<string, Value>, keys: seq<string>): (r: seq<string>)
    ensures forall k :: k in r <==> k in keys && k !in m
    ensures |r| <= |keys|
  {
    if |keys| == 0 then []
    else (if keys[0] in m then [] else [keys[0]]) + Missing(m, keys[1..])
  }

  /** Every parameter of `extract_proto2_headers` has a header. */
  predicate HasHeaders(h: map<string, Value>)
    ensures HasHeaders(h) <==> forall k :: k in HeaderKeys ==> k in h
  {
    "id" in h && "retries" in h && "eta" in h && "expires" in h && "group" in h && "timelimit" in h && "task" in h
  }

  /** `extract_proto2_headers(**headers)`: the seven named headers, `group`
      renamed `taskset`, and `utc` always true; other headers are dropped. */
  function ExtractHeaders(h: map<string, Value>): (r: Result<Headers1>)
    ensures r.Err? <==> !HasHeaders(h)
    ensures r.Err? ==> r.error == MissingHeaders(Missing(h, HeaderKeys))
    ensures r.Ok? ==> r.value == Headers1(h["id"], h["task"], h["retries"], h["eta"], h["expires"], Bool(true), h["group"], h["timelimit"])
  {
    if HasHeaders(h) then
      Ok(Headers1(h["id"], h["task"], h["retries"], h["eta"], h["expires"], Bool(true), h["group"], h["timelimit"]))
    else
      var missing := Missing(h, HeaderKeys);
      Err(MissingHeaders(missing))
  }

  /** `extract_proto2_embed(**embed)`: callbacks and errbacks default to an
      empty list when absent or false-valued, `task_chain` becomes `chain`,
      `chord` is passed through; any other key, `chain` included, is ignored. */
  function ExtractEmbed(e: map<string, Value>): (r: Embedded)
    ensures r.callbacks == (if Truthy(Get(e, "callbacks")) then e["callbacks"] else List([]))
    ensures r.errbacks == (if Truthy(Get(e, "errbacks")) then e["errbacks"] else List([]))
    ensures r.chain == Get(e, "task_chain") && r.chord == Get(e, "chord")
  {
    Embedded(Or(Get(e, "callbacks"), List([])), Or(Get(e, "errbacks"), List([])), Get(e, "task_chain"), Get(e, "chord"))
  }

  /** The `callbacks` entry of the converted body: the extracted callbacks,
      with the embedded chain appended when there is one. */
  function LinkChain(callbacks: Value, chained: Value): (r: Result<Value>)
    ensures !Truthy(chained) ==> r == Ok(callbacks)
    ensures Truthy(chained) ==> (r.Ok? <==> callbacks.List?)
    ensures Truthy(chained) && callbacks.List? ==>
      r.value.List? && |r.value.items| == |callbacks.items| + 1
      && r.value.items[..|callbacks.items|] == callbacks.items
      && r.value.items[|callbacks.items|] == Chain(chained)
  {
    if !Truthy(chained) then Ok(callbacks)
    else if callbacks.List? then
      var r := List(callbacks.items + [Chain(chained)]);
      assert r.items[..|callbacks.items|] == callbacks.items;
      Ok(r)
    else Err(CallbacksNotList)
  }

  /** `proto2_to_proto1`. */
  function Proto2ToProto1(body: Body2, headers: map<string, Value>): (r: Result<Body1>)
    ensures r.Err? <==>
      !HasHeaders(headers) || (Truthy(Get(body.embed, "task_chain")) && !Or(Get(body.embed, "callbacks"), List([])).List?)
    ensures !HasHeaders(headers) ==> r == Err(MissingHeaders(Missing(headers, HeaderKeys)))
    ensures r.Ok? ==>
      && r.value.id == headers["id"] && r.value.task == headers["task"]
      && r.value.retries == headers["retries"] && r.value.eta == headers["eta"]
      && r.value.expires == headers["expires"] && r.value.timelimit == headers["timelimit"]
      && r.value.taskset == headers["group"] && r.value.utc == Bool(true)
    ensures r.Ok? ==> r.value.args == body.args && r.value.kwargs == body.kwargs
    ensures r.Ok? ==> r.value.errbacks == Or(Get(body.embed, "errbacks"), List([]))
    ensures r.Ok? ==> r.value.chord == Get(body.embed, "chord")
    ensures r.Ok? && !Truthy(Get(body.embed, "task_chain")) ==>
      r.value.callbacks == Or(Get(body.embed, "callbacks"), List([]))
    ensures r.Ok? && Truthy(Get(body.embed, "task_chain")) ==>
      r.value.callbacks == List(Or(Get(body.embed, "callbacks"), List([])).items + [Chain(body.embed["task_chain"])])
  {
    var embedded := ExtractEmbed(body.embed);
    match ExtractHeaders(headers)
    case Err(e) => Err(e)
    case Ok(h) =>
      match LinkChain(embedded.callbacks, embedded.chain)
      case Err(e) => Err(e)
      case Ok(callbacks) =>
        Ok(Body1(h.id, h.task, h.retries, h.eta, h.expires, h.utc, h.taskset, h.timelimit,
                 body.args, body.kwargs, callbacks, embedded.errbacks, embedded.chord))
  }

  /** `m` restricted to `keys`. */
  function Restrict(m: map<string, Value>, keys: set<string>): (r: map<string, Value>)
    ensures r.Keys == m.Keys * keys && forall k :: k in r ==> r[k] == m[k]
  {
    map k | k in m && k in keys :: m[k]
  }

  /** Only `callbacks`, `errbacks`, `task_chain` and `chord` of the embedded
      options matter; a literal `chain` key in particular is ignored. */
  lemma EmbedKeysOnly(body: Body2, headers: map<string, Value>)
    ensures Proto2ToProto1(body, headers) == Proto2ToProto1(body.(embed := Restrict(body.embed, EmbedKeys)), headers)
  {
    var e := body.embed;
    var e' := Restrict(e, EmbedKeys);
    assert Get(e, "callbacks") == Get(e', "callbacks") && Get(e, "errbacks") == Get(e', "errbacks");
    assert Get(e, "task_chain") == Get(e', "task_chain") && Get(e, "chord") == Get(e', "chord");
  }

  /** Only the seven named headers matter. */
  lemma HeaderKeysOnly(body: Body2, headers: map<string, Value>)
    ensures Proto2ToProto1(body, headers) == Proto2ToProto1(body, Restrict(headers, set k | k in HeaderKeys))
  {
    var h' := Restrict(headers, set k | k in HeaderKeys);
    assert Missing(headers, HeaderKeys) == Missing(h', HeaderKeys) by {
      MissingSame(headers, h', HeaderKeys);
    }
  }

  lemma {:induction false} MissingSame(a: map<string, Value>, b: map<string, Value>, keys: seq<string>)
    requires forall k :: k in keys ==> (k in a <==> k in b)
    ensures Missing(a, keys) == Missing(b, keys)
    decreases |keys|
  {
    if |keys| > 0 {
      MissingSame(a, b, keys[1..]);
    }
  }
}
