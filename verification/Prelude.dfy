/** Wrappers shared by every module of the model. */
module Prelude {

  /** A Go pointer that may be nil, or a `value, ok` pair. */
  datatype Option<+T> = None | Some(value: T)

  /** The identifiers of the entities. Only equality and order matter. */
  type Uuid = nat

  /** The value that Go leaves in a UUID field nobody assigned. */
  const NIL_UUID: Uuid := 0

  /** The error values of ent/ent.go, plus the errors that come from the driver or from a hook. */
  datatype Error =
    | ValidationError(name: string)
    | NotFoundError(entity: string)
    | NotSingularError(entity: string)
    | NotLoadedError(edge: string)
    | ConstraintError(code: nat)
    | DriverError(code: nat)
    | HookError(code: nat)
    | UnexpectedMutationType
    | UnexpectedNodeType
    | UninitializedHook
    | UnexpectedForeignKey(key: Uuid)

  datatype Result<+T> = Success(value: T) | Failure(error: Error)

  /** What the driver reports about a failed INSERT. */
  datatype DriverFault = DriverFault(constraint: bool, code: nat)

  /** The wrapping that every `sqlSave` and bulk `Save` applies to a driver error. */
  function WrapFault(f: DriverFault): (e: Error)
    ensures (e.ConstraintError? <==> f.constraint) && (e.DriverError? <==> !f.constraint) && e.code == f.code
  {
    if f.constraint then ConstraintError(f.code) else DriverError(f.code)
  }

  /** Position `i` holds the last element with a property. */
  predicate LastWith<T>(s: seq<T>, i: int, p: T -> bool) {
    0 <= i < |s| && p(s[i]) && forall j :: i < j < |s| ==> !p(s[j])
  }

  predicate NoneWith<T>(s: seq<T>, p: T -> bool) {
    forall i :: 0 <= i < |s| ==> !p(s[i])
  }

  /** The last element is the last with the property, or does not count. */
  lemma LastWithStep<T>(s: seq<T>, p: T -> bool)
    requires s != []
    ensures var n := |s| - 1;
      if p(s[n]) then !NoneWith(s, p) && forall i :: LastWith(s, i, p) <==> i == n
      else (NoneWith(s, p) <==> NoneWith(s[..n], p)) && forall i :: LastWith(s, i, p) <==> LastWith(s[..n], i, p)
  {
    var n := |s| - 1;
    assert forall i :: 0 <= i < n ==> s[..n][i] == s[i];
    if !p(s[n]) {
      forall i ensures LastWith(s, i, p) <==> LastWith(s[..n], i, p) {
        assert LastWith(s[..n], i, p) ==> forall j :: i < j < |s| ==> j == n || s[j] == s[..n][j];
      }
    }
  }

  lemma {:induction false} LastIndex<T>(s: seq<T>, p: T -> bool) returns (i: nat)
    requires !NoneWith(s, p)
    ensures LastWith(s, i, p)
  {
    LastWithStep(s, p);
    if p(s[|s| - 1]) {
      i := |s| - 1;
    } else {
      i := LastIndex(s[..|s| - 1], p);
    }
  }
}
