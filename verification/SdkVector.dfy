/** The SDK's observable vectors: `VectorDiff` and its application. */
module SdkVector {
  import opened Wrappers

  datatype VectorDiff<T> =
    | Append(values: seq<T>)
    | Clear
    | PushFront(value: T)
    | PushBack(value: T)
    | PopFront
    | PopBack
    | Insert(index: nat, value: T)
    | Set(index: nat, value: T)
    | Remove(index: nat)
    | Truncate(length: nat)
    | Reset(values: seq<T>)

  /** Whether truncating to more than the length does nothing or panics; either way is covered. */
  const TRUNCATES_LENIENTLY: bool

  /** `diff.apply(&mut vector)`; `None` where an index outside of the vector panics. */
  function Apply<T>(diff: VectorDiff<T>, v: seq<T>): Option<seq<T>> {
    match diff
    case Append(values) => Some(v + values)
    case Clear => Some([])
    case PushFront(value) => Some([value] + v)
    case PushBack(value) => Some(v + [value])
    case PopFront => Some(if v == [] then [] else v[1..])
    case PopBack => Some(if v == [] then [] else v[..|v| - 1])
    case Insert(index, value) => if index <= |v| then Some(v[..index] + [value] + v[index..]) else None
    case Set(index, value) => if index < |v| then Some(v[index := value]) else None
    case Remove(index) => if index < |v| then Some(v[..index] + v[index + 1..]) else None
    case Truncate(length) =>
      if length <= |v| then Some(v[..length]) else if TRUNCATES_LENIENTLY then Some(v) else None
    case Reset(values) => Some(values)
  }

  function ApplyAll<T>(diffs: seq<VectorDiff<T>>, v: seq<T>): Option<seq<T>> {
    if diffs == [] then Some(v)
    else
      var next :- Apply(diffs[0], v);
      ApplyAll(diffs[1..], next)
  }
}
