/** Runtime values as the cache sees them. The cache stores `object`s, and
    a get-or-compute call asks for a type argument `TResult`; a stored
    object either is null or carries its runtime type in its constructor,
    so the type test `o is TResult` becomes a tag check. */
module Values {

  /** Four representative type arguments for `TResult`: `TBool` and `TInt`
      stand for non-nullable value types, `TString` for a sealed reference
      type, and `TObject` for `object`, which every non-null value passes. */
  datatype Ty = TBool | TInt | TString | TObject

  /** A stored object: null, or a boxed value tagged with its runtime type. */
  datatype Val = Null | BoolVal(b: bool) | IntVal(i: int) | StrVal(s: string)

  /** The type test `v is T`: never true of null; every non-null value is an `object`. */
  predicate IsType(v: Val, t: Ty)
    ensures IsType(v, t) ==> v != Null
  {
    match t
    case TBool => v.BoolVal?
    case TInt => v.IntVal?
    case TString => v.StrVal?
    case TObject => !v.Null?
  }

  /** Reference types admit null; value types do not. */
  predicate Nullable(t: Ty) {
    t == TString || t == TObject
  }

  /** A value a `Func<T>` can hand back: null only when `T` is a reference
      type, otherwise a value of type `T`. */
  predicate Fits(v: Val, t: Ty) {
    if v == Null then Nullable(t) else IsType(v, t)
  }

  /** `default(T)`: the zero of a value type, null for a reference type. */
  function Default(t: Ty): (d: Val)
    ensures Fits(d, t)
    ensures d == Null <==> Nullable(t)
    ensures !IsType(d, t) ==> d == Null
  {
    match t
    case TBool => BoolVal(false)
    case TInt => IntVal(0)
    case TString => Null
    case TObject => Null
  }

  /** The type tests form a flat hierarchy under `object`: every object
      passes `is object`, and no object passes two distinct tests below it,
      so a stored object is a hit for at most one specific type. */
  lemma TypeTestHierarchy(v: Val, t: Ty, u: Ty)
    ensures v != Null <==> IsType(v, TObject)
    ensures IsType(v, t) ==> IsType(v, TObject)
    ensures IsType(v, t) && IsType(v, u) && t != TObject && u != TObject ==> t == u
  {
  }
}
