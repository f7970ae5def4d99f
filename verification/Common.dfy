/** Types used across the models. */
module Common {
  datatype Option<+T> = None | Some(value: T)

  /** The events of a run, latest last. */
  datatype Trace<E> = Begin | Then(before: Trace<E>, event: E)
  {
    function Followed(later: Trace<E>): Trace<E> {
      match later
      case Begin => this
      case Then(more, e) => Then(Followed(more), e)
    }
  }

  /** camera_cmd_type_t: what the worker threads are told to do. */
  datatype Cmd = StartProc | StopProc | DoNextJob | Exit

  /** How often a value occurs in a sequence. */
  function Times<T(==)>(s: seq<T>, x: T): nat {
    if s == [] then 0 else (if s[0] == x then 1 else 0) + Times(s[1..], x)
  }

  lemma {:induction false} TimesAppend<T>(a: seq<T>, b: seq<T>, x: T)
    ensures Times(a + b, x) == Times(a, x) + Times(b, x)
  {
    if a == [] {
      assert a + b == b;
    } else {
      assert (a + b)[1..] == a[1..] + b;
      TimesAppend(a[1..], b, x);
    }
  }
}
