/** Small failure-carrying datatypes shared by every module of the model. */
module Common {

  /** A value that may be absent (JavaScript `undefined`/`null`, a missing key). */
  datatype Option<+T> = None | Some(value: T) {
    predicate IsFailure() {
      None?
    }

    function PropagateFailure<U>(): Option<U>
      requires None?
    {
      None
    }

    function Extract(): T
      requires Some?
    {
      value
    }

    function GetOr(default: T): T {
      match this
      case Some(v) => v
      case None => default
    }
  }

  /** Either a value or a thrown error message. */
  datatype Result<+T> = Ok(value: T) | Err(message: string)

  /**
   * The outcome of one storage or file-system call. Calls into the key-value
   * backend and the file system are not modelled; instead every such call
   * takes an `Io` saying whether it succeeds, and with which error message
   * it fails.
   */
  datatype Io = Done | Fail(message: string)

  /** JavaScript's `${error.message || error}`: an Error whose message is empty prints as "Error". */
  function Reason(message: string): (r: string)
    ensures r != ""
    ensures message != "" ==> r == message
  {
    if message == "" then "Error" else message
  }

  /** A sequence without repeated elements. */
  predicate NoDup<T(==)>(s: seq<T>) {
    forall i, j :: 0 <= i < j < |s| ==> s[i] != s[j]
  }

  /** `r` is `s` with some elements left out, the rest kept in their order. */
  predicate Subsequence<T(==)>(r: seq<T>, s: seq<T>)
    decreases |s|
  {
    if |r| == 0 then true
    else if |s| == 0 then false
    else if r[0] == s[0] then Subsequence(r[1..], s[1..])
    else Subsequence(r, s[1..])
  }

  /** Every sequence is a subsequence of itself. */
  lemma {:induction false} SubsequenceRefl<T>(s: seq<T>)
    ensures Subsequence(s, s)
    decreases |s|
  {
    if |s| > 0 {
      SubsequenceRefl(s[1..]);
    }
  }
}
