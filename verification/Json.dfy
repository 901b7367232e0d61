/** JSON values as the scripts see them after decoding, and the two carrier types
    (`Option`, `Result`) in which absent values and raised refusals are returned. */
module Json {

  datatype Option<+T> = None | Some(value: T)

  datatype Result<+T, +E> = Ok(value: T) | Fail(error: E) {
    predicate IsFailure() {
      Fail?
    }

    function PropagateFailure<U>(): Result<U, E>
      requires Fail?
    {
      Fail(error)
    }

    function Extract(): T
      requires Ok?
    {
      value
    }
  }

  /** Member names of JSON objects.  Every name a modelled script looks up has its own
      constructor; all remaining names are `Named`. */
  datatype Key =
    // event envelope
    | SchemaVersion | EventUuid | EventType | WriterRole | CommittedAt | PreviousEventHash
    | Payload | PayloadHash | EventHash | Metadata | CommentBinding | KeyId | Signature
    // comment binding
    | Surface | Repository | Issue | CommentId | AuthorId | AuthorLogin | AuthorType
    | RawBodyHash | CreatedAt | UpdatedAt | VerificationMode | ToleranceMinutes
    // GitHub comment object
    | Body | Id | User | Login | Type
    // claim payloads
    | Repo | Session | ClaimSession | OldSession | NewSession
    | ClaimExpiresAt | ExpiresAt | HeartbeatInterval | HeartbeatGrace
    // audit debt
    | Status | Intent | Allowed | DenyEventIntentId | DenyCode | Operation
    | Named(name: string)

  datatype Value =
    | Null
    | Bool(b: bool)
    | Num(n: int)
    | Str(s: string)
    | Arr(items: seq<Value>)
    | Obj(fields: Object)

  type Object = map<Key, Value>

  /** `dict.get(key)`: an absent member and a `null` member read the same. */
  function Get(o: Object, k: Key): Value {
    if k in o then o[k] else Null
  }

  /** Python truth of a decoded value. */
  predicate Truthy(v: Value) {
    match v
    case Null => false
    case Bool(b) => b
    case Num(n) => n != 0
    case Str(s) => s != ""
    case Arr(items) => items != []
    case Obj(fields) => fields != map[]
  }

  /** Python `a or b`. */
  function Or(a: Value, b: Value): Value {
    if Truthy(a) then a else b
  }

  /** `value if isinstance(value, str) and value else None` */
  function NonEmptyString(v: Value): Option<string> {
    if v.Str? && v.s != "" then Some(v.s) else None
  }

  /** A positive integer that is not a boolean, else nothing. */
  function PositiveInt(v: Value): Option<int> {
    if v.Num? && v.n > 0 then Some(v.n) else None
  }

  /** A check that raises `why` when it fails. */
  function Require<E>(ok: bool, why: E): Result<(), E> {
    if ok then Ok(()) else Fail(why)
  }
}
