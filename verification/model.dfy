/** The framework's `Model`: a record that remembers the properties it was
    built with, tracks the properties as they are changed, and keeps a map
    from field to error record.

    A model is a value here: every operation that changes it returns the
    updated model. Fields are PHP array keys. */
module Models {
  import opened Arrays

  datatype Model<V, E> = Model(original: AssocArray<V>, current: AssocArray<V>, errors: AssocArray<E>)

  /** What every model keeps: each field it was built with is still a
      current field. */
  predicate Valid<V, E>(m: Model<V, E>)
  {
    Keys(m.original) <= Keys(m.current)
  }

  /** `new Model($props)`: the properties given are both the original and
      the current ones; there are no errors yet. */
  function New<V, E>(props: AssocArray<V>): (m: Model<V, E>)
    ensures OriginalProps(m) == props && CurrentProps(m) == props
    ensures AllErrors(m) == []
    ensures Valid(m)
  {
    Model(props, props, [])
  }

  /** `$model->field`: the current value of the field, `None` when the
      model has no such field. */
  function Get<V, E>(m: Model<V, E>, field: Key): (r: Option<V>)
    ensures r.Some? <==> field in Keys(m.current)
    ensures r.Some? ==> (field, r.value) in m.current
  {
    LookupFound(m.current, field);
    Lookup(m.current, field)
  }

  /** `originalProp($field)`: the value the field had when the model was
      built, `None` when it had none. */
  function OriginalProp<V, E>(m: Model<V, E>, field: Key): (r: Option<V>)
    ensures r.Some? <==> field in Keys(m.original)
    ensures r.Some? ==> (field, r.value) in m.original
  {
    LookupFound(m.original, field);
    Lookup(m.original, field)
  }

  /** `originalProps()`: the properties the model was built with, the
      same ones `originalProp` answers with field by field. */
  function OriginalProps<V, E>(m: Model<V, E>): (r: AssocArray<V>)
    ensures forall f :: f in Keys(r) <==> OriginalProp(m, f).Some?
    ensures forall i :: 0 <= i < |r| ==> OriginalProp(m, r[i].0) == Some(r[i].1)
  {
    LookupEveryEntry(m.original);
    m.original
  }

  /** `currentProps()`: the properties as they stand now, the same ones
      field access answers with field by field. */
  function CurrentProps<V, E>(m: Model<V, E>): (r: AssocArray<V>)
    ensures forall f :: f in Keys(r) <==> Get(m, f).Some?
    ensures forall i :: 0 <= i < |r| ==> Get(m, r[i].0) == Some(r[i].1)
  {
    LookupEveryEntry(m.current);
    m.current
  }

  /** `changeProps($delta)`: every field of `delta` takes its value from
      `delta`, every other field keeps its current value; the original
      properties and the errors are not touched. */
  function ChangeProps<V, E>(m: Model<V, E>, delta: AssocArray<V>): (r: Model<V, E>)
    ensures OriginalProps(r) == OriginalProps(m)
    ensures AllErrors(r) == AllErrors(m)
    ensures forall f :: Get(r, f) == if f in Keys(delta) then Lookup(delta, f) else Get(m, f)
    ensures Keys(CurrentProps(r)) == Keys(CurrentProps(m)) + Keys(delta)
    ensures Valid(m) ==> Valid(r)
  {
    Model(m.original, Merge(m.current, delta), m.errors)
  }

  /** `addError($field, $error)`: records `error` for `field`, replacing an
      earlier one; the errors of other fields and the properties are not
      touched. */
  function AddError<V, E>(m: Model<V, E>, field: Key, error: E): (r: Model<V, E>)
    ensures Error(r, field) == Some(error)
    ensures forall f :: f != field ==> Error(r, f) == Error(m, f)
    ensures OriginalProps(r) == OriginalProps(m) && CurrentProps(r) == CurrentProps(m)
  {
    Model(m.original, m.current, Put(m.errors, field, error))
  }

  /** `error($field)`: the error recorded for `field`, `None` when there is none. */
  function Error<V, E>(m: Model<V, E>, field: Key): (r: Option<E>)
    ensures r.Some? <==> field in Keys(m.errors)
    ensures r.Some? ==> (field, r.value) in m.errors
  {
    LookupFound(m.errors, field);
    Lookup(m.errors, field)
  }

  /** `allErrors()`: every recorded error, by field, the same ones `error`
      answers with field by field. */
  function AllErrors<V, E>(m: Model<V, E>): (r: AssocArray<E>)
    ensures forall f :: f in Keys(r) <==> Error(m, f).Some?
    ensures forall i :: 0 <= i < |r| ==> Error(m, r[i].0) == Some(r[i].1)
  {
    LookupEveryEntry(m.errors);
    m.errors
  }

  /** `clearErrors()`: forgets every error and keeps the properties. The
      source returns the model itself so that calls can be chained; here
      the updated model is returned for the next call to take. */
  function ClearErrors<V, E>(m: Model<V, E>): (r: Model<V, E>)
    ensures AllErrors(r) == []
    ensures forall f :: Error(r, f) == None
    ensures OriginalProps(r) == OriginalProps(m) && CurrentProps(r) == CurrentProps(m)
  {
    Model(m.original, m.current, [])
  }

  // ---------------------------------------------------------------------
  // Sequences of operations
  // ---------------------------------------------------------------------

  /** The operations that change a model. */
  datatype Op<V, E> = ChangePropsOp(delta: AssocArray<V>) | AddErrorOp(field: Key, error: E) | ClearErrorsOp

  function Apply<V, E>(m: Model<V, E>, op: Op<V, E>): Model<V, E>
  {
    match op
    case ChangePropsOp(delta) => ChangeProps(m, delta)
    case AddErrorOp(field, error) => AddError(m, field, error)
    case ClearErrorsOp => ClearErrors(m)
  }

  /** The model after the operations, applied in order. */
  function Run<V, E>(m: Model<V, E>, ops: seq<Op<V, E>>): Model<V, E>
    decreases |ops|
  {
    if |ops| == 0 then m else Run(Apply(m, ops[0]), ops[1..])
  }

  /** No sequence of operations changes the original properties or breaks
      `Valid`. */
  lemma {:induction false} RunKeepsOriginal<V, E>(m: Model<V, E>, ops: seq<Op<V, E>>)
    ensures OriginalProps(Run(m, ops)) == OriginalProps(m)
    ensures Valid(m) ==> Valid(Run(m, ops))
    decreases |ops|
  {
    if |ops| > 0 {
      RunKeepsOriginal(Apply(m, ops[0]), ops[1..]);
    }
  }

  /** Whatever happens to a model, `originalProp` still answers with the
      value the field was built with. */
  lemma OriginalPropAfterRun<V, E>(props: AssocArray<V>, ops: seq<Op<V, E>>, field: Key)
    ensures OriginalProp(Run(New(props), ops), field) == Lookup(props, field)
  {
    RunKeepsOriginal(New(props), ops);
  }

  /** A field the model was built with is never lost from the current
      properties. */
  lemma GetAfterRun<V, E>(props: AssocArray<V>, ops: seq<Op<V, E>>, field: Key)
    requires field in Keys(props)
    ensures Get(Run(New(props), ops), field).Some?
  {
    RunKeepsOriginal(New(props), ops);
  }

  /** Errors and properties are independent: changing properties and
      recording or clearing errors can be done in either order. */
  lemma ErrorsIndependentOfProps<V, E>(m: Model<V, E>, delta: AssocArray<V>, field: Key, error: E)
    ensures ChangeProps(AddError(m, field, error), delta) == AddError(ChangeProps(m, delta), field, error)
    ensures ChangeProps(ClearErrors(m), delta) == ClearErrors(ChangeProps(m, delta))
  {
  }

  /** The latest error recorded for a field is the one `error` returns. */
  lemma {:induction false} AddErrorTwice<V, E>(m: Model<V, E>, field: Key, e1: E, e2: E)
    ensures AddError(AddError(m, field, e1), field, e2) == AddError(m, field, e2)
  {
    PutPut(m.errors, field, e1, e2);
  }

  /** Clearing twice is clearing once. */
  lemma ClearErrorsIdempotent<V, E>(m: Model<V, E>)
    ensures ClearErrors(ClearErrors(m)) == ClearErrors(m)
  {
  }

  /** On a fresh model, `changeProps($delta)` makes the current properties
      the construction properties with `delta` written over them. */
  lemma ChangePropsOfNew<V, E>(props: AssocArray<V>, delta: AssocArray<V>)
    ensures OriginalProps(ChangeProps(New<V, E>(props), delta)) == props
    ensures CurrentProps(ChangeProps(New<V, E>(props), delta)) == Merge(props, delta)
  {
  }

  // ---------------------------------------------------------------------
  // The assertions of the model tests
  // ---------------------------------------------------------------------

  /** The admin model of the tests, built with `id` 1 and `name` "test". */
  function Admin(): Model<Value, Value>
  {
    New([(StrKey("id"), Int(1)), (StrKey("name"), Str("test"))])
  }

  /** `testGet`, `testOriginalProp` and `testOriginalProps`. */
  lemma AdminReadExamples()
    ensures Get(Admin(), StrKey("id")) == Some(Int(1))
    ensures OriginalProp(Admin(), StrKey("name")) == Some(Str("test"))
    ensures OriginalProps(Admin()) == [(StrKey("id"), Int(1)), (StrKey("name"), Str("test"))]
  {
  }

  /** `testChangeProps`: after setting `id` to 2 the original properties
      are as built and the current ones carry the new `id`. */
  lemma ChangePropsExample()
    ensures OriginalProps(ChangeProps(Admin(), [(StrKey("id"), Int(2))])) == [(StrKey("id"), Int(1)), (StrKey("name"), Str("test"))]
    ensures CurrentProps(ChangeProps(Admin(), [(StrKey("id"), Int(2))])) == [(StrKey("id"), Int(2)), (StrKey("name"), Str("test"))]
  {
    var props := [(StrKey("id"), Int(1)), (StrKey("name"), Str("test"))];
    assert Put(props, StrKey("id"), Int(2)) == [(StrKey("id"), Int(2))] + props[1..];
  }

  /** The error record the tests add for the field `test`. */
  function TestError(): Value
  {
    Arr([(StrKey("type"), Str("error")), (StrKey("msg"), Str("this is test error"))])
  }

  /** `testError` and `testErrorsAgain`: the recorded error is returned, and
      none is left after clearing. */
  lemma ErrorExamples()
    ensures Error(AddError(Admin(), StrKey("test"), TestError()), StrKey("test")) == Some(TestError())
    ensures AllErrors(ClearErrors(AddError(Admin(), StrKey("test"), TestError()))) == []
  {
  }
}
