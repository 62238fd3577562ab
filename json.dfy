/** The values that the logger's JSON decoder can hand back, and Ruby's
    notion of truthiness on them. */
module Json {

  /** A decoded JSON document. Numbers are exact reals (the binary floating
      point of the Ruby runtime is not modelled). */
  datatype Json =
    | JNull
    | JBool(b: bool)
    | JNumber(n: real)
    | JString(s: string)
    | JArray(items: seq<Json>)
    | JObject(fields: map<string, Json>)

  /** In Ruby only nil and false are falsy. */
  predicate Truthy(v: Json) {
    !(v.JNull? || v == JBool(false))
  }

  /** Outcome of `JSON.load(line) rescue nil`: the loader either raised a
      standard error (turned into nil by the rescue modifier) or returned a value. */
  datatype Decoded = DecodeRaised | Loaded(value: Json)

  /** `if json`: the line is queued exactly when the loader returned a truthy value. */
  predicate Keep(d: Decoded) {
    d.Loaded? && Truthy(d.value)
  }

  /** Unlike many languages, Ruby treats zero, the empty string, the empty
      array and the empty hash as true; only nil and false are not. */
  lemma RubyTruthiness()
    ensures Truthy(JNumber(0.0)) && Truthy(JString("")) && Truthy(JArray([])) && Truthy(JObject(map[]))
    ensures Truthy(JBool(true)) && !Truthy(JBool(false)) && !Truthy(JNull)
    ensures forall v :: !Truthy(v) <==> v == JNull || v == JBool(false)
  {
  }

  /** A line is dropped exactly when the loader raised or returned nil or false. */
  lemma KeepExactly(d: Decoded)
    ensures !Keep(d) <==> d == DecodeRaised || d == Loaded(JNull) || d == Loaded(JBool(false))
  {
  }
}
