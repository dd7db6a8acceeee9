/** `OneShotContinuation`: resumes a coroutine continuation at most once,
    whichever of `finish` and `finishWithException` comes first. */
module OneShotContinuation {

  /** How the continuation was resumed; `E` stands for `Throwable`. */
  datatype Resumption<T, E> = Resumed(value: T) | ResumedWithException(error: E)

  class OneShot<T, E> {
    /** The `AtomicBoolean`. */
    var finished: bool
    /** The calls made on the wrapped continuation, in order. */
    var resumptions: seq<Resumption<T, E>>

    ghost predicate Valid()
      reads this
    {
      |resumptions| <= 1 && (finished <==> |resumptions| == 1)
    }

    constructor()
      ensures Valid() && !finished && resumptions == []
    {
      finished := false;
      resumptions := [];
    }

    /** `finish(value)`: the first finishing call resumes with `value`;
        any later one does nothing. */
    method Finish(value: T)
      requires Valid()
      modifies this
      ensures Valid() && finished
      ensures old(finished) ==> resumptions == old(resumptions)
      ensures !old(finished) ==> resumptions == [Resumed(value)]
    {
      if !finished {
        finished := true;
        resumptions := resumptions + [Resumed(value)];
      }
    }

    /** `finishWithException(t)`: the same latch, resuming with an error. */
    method FinishWithException(t: E)
      requires Valid()
      modifies this
      ensures Valid() && finished
      ensures old(finished) ==> resumptions == old(resumptions)
      ensures !old(finished) ==> resumptions == [ResumedWithException(t)]
    {
      if !finished {
        finished := true;
        resumptions := resumptions + [ResumedWithException(t)];
      }
    }

    /** `isFinished()`: true exactly when the continuation was resumed. */
    method IsFinished() returns (r: bool)
      requires Valid()
      ensures r <==> |resumptions| == 1
    {
      r := finished;
    }
  }
}
