/**
 The joining futures `Zip` and `TryZip`. An input is what it answers at each poll of the joined
 future, None while pending; any readiness schedule is such a function.
 */
module JoinFutures {
  import opened Text

  datatype Result<+T, +E> = Ok(value: T) | Err(error: E)

  datatype Poll<+T> = Pending | Ready(value: T)

  type Input<T> = nat -> Option<T>

  /** The first of the polls before `n` at which the input is ready. */
  function First<T>(f: Input<T>, n: nat): (c: Option<nat>)
    ensures c.Some? ==> c.value < n && f(c.value).Some? && forall k :: 0 <= k < c.value ==> f(k).None?
    ensures c.None? ==> forall k :: 0 <= k < n ==> f(k).None?
  {
    if n == 0 then None
    else if First(f, n - 1).Some? then First(f, n - 1)
    else if f(n - 1).Some? then Some(n - 1)
    else None
  }

  /** What the input delivered before poll `n`. */
  function Output<T>(f: Input<T>, n: nat): Option<T> {
    if First(f, n).Some? then f(First(f, n).value) else None
  }

  /** The polls an input sees: every one up to and including the one at which it is ready. */
  function Polls<T>(f: Input<T>, n: nat): seq<nat> {
    var until := if First(f, n).Some? then First(f, n).value + 1 else n;
    seq(until, i => i)
  }

  /** Takes both outputs when both are there, else puts back what it took. */
  method TakeZipFromParts<T1, T2>(o1: Option<T1>, o2: Option<T2>)
    returns (r: Poll<(T1, T2)>, p1: Option<T1>, p2: Option<T2>)
    ensures r.Ready? <==> o1.Some? && o2.Some?
    ensures r.Ready? ==> r.value == (o1.value, o2.value) && p1.None? && p2.None?
    ensures r.Pending? ==> p1 == o1 && p2 == o2
  {
    if o1.Some? && o2.Some? {
      return Ready((o1.value, o2.value)), None, None;
    }
    return Pending, o1, o2;
  }

  /** One input of a join after `n` polls: still held, or replaced by its output. */
  ghost predicate Held<T>(future: Option<Input<T>>, output: Option<T>, polls: seq<nat>, f: Input<T>, n: nat) {
    && future == (if First(f, n).Some? then None else Some(f))
    && output == Output(f, n)
    && polls == Polls(f, n)
  }

  /** An input that is still held is polled once more; a finished one is left alone. */
  lemma PolledOnce<T>(future: Option<Input<T>>, output: Option<T>, polls: seq<nat>, f: Input<T>, n: nat)
    requires Held(future, output, polls, f, n)
    ensures future.None? ==> Held(future, output, polls, f, n + 1)
    ensures future.Some? ==> future.value == f
    ensures future.Some? && f(n).Some? ==> Held(None, f(n), polls + [n], f, n + 1)
    ensures future.Some? && f(n).None? ==> Held(future, output, polls + [n], f, n + 1)
  {
  }

  class Zip<T1, T2> {
    var future1: Option<Input<T1>>
    var output1: Option<T1>
    var future2: Option<Input<T2>>
    var output2: Option<T2>
    ghost var polls1: seq<nat>
    ghost var polls2: seq<nat>

    /** The state after `n` polls of inputs `f1` and `f2`, none of which found both finished. */
    ghost predicate After(f1: Input<T1>, f2: Input<T2>, n: nat)
      reads this
    {
      && Held(future1, output1, polls1, f1, n) && Held(future2, output2, polls2, f2, n)
      && (output1.None? || output2.None?)
    }

    constructor (f1: Input<T1>, f2: Input<T2>)
      ensures After(f1, f2, 0)
    {
      future1, output1, future2, output2 := Some(f1), None, Some(f2), None;
      polls1, polls2 := [], [];
    }

    /** Polls the inputs that have not finished; ready exactly when both have, with the outputs in order. */
    method PollOnce(n: nat, ghost f1: Input<T1>, ghost f2: Input<T2>) returns (r: Poll<(T1, T2)>)
      requires After(f1, f2, n)
      modifies this
      ensures r.Ready? <==> Output(f1, n + 1).Some? && Output(f2, n + 1).Some?
      ensures r.Ready? ==> r.value == (Output(f1, n + 1).value, Output(f2, n + 1).value)
      ensures r.Pending? ==> After(f1, f2, n + 1)
      ensures polls1 == Polls(f1, n + 1) && polls2 == Polls(f2, n + 1)
    {
      PolledOnce(future1, output1, polls1, f1, n);
      PolledOnce(future2, output2, polls2, f2, n);
      if future1.Some? {
        polls1 := polls1 + [n];
        var out := future1.value(n);
        if out.Some? {
          output1, future1 := out, None;
        }
      }
      if future2.Some? {
        polls2 := polls2 + [n];
        var out := future2.value(n);
        if out.Some? {
          output2, future2 := out, None;
        }
      }
      assert Held(future1, output1, polls1, f1, n + 1) && Held(future2, output2, polls2, f2, n + 1);
      r, output1, output2 := TakeZipFromParts(output1, output2);
    }
  }

  function Max(a: nat, b: nat): nat {
    if a < b then b else a
  }

  /** The joined future over its first `limit` polls: when it is ready, and with what. */
  function ZipOutcome<T1, T2>(f1: Input<T1>, f2: Input<T2>, limit: nat): Option<(nat, T1, T2)> {
    var c1, c2 := First(f1, limit), First(f2, limit);
    if c1.None? || c2.None? then None
    else Some((Max(c1.value, c2.value), f1(c1.value).value, f2(c2.value).value))
  }

  /** Polling a `Zip` until it is ready: it is ready at exactly the later completion of its inputs. */
  method DriveZip<T1, T2>(f1: Input<T1>, f2: Input<T2>, limit: nat) returns (r: Option<(nat, T1, T2)>)
    ensures r == ZipOutcome(f1, f2, limit)
  {
    var zip := new Zip(f1, f2);
    for n := 0 to limit
      invariant zip.After(f1, f2, n)
    {
      var p := zip.PollOnce(n, f1, f2);
      if p.Ready? {
        FirstStays(f1, n + 1, limit);
        FirstStays(f2, n + 1, limit);
        return Some((n, p.value.0, p.value.1));
      }
    }
    return None;
  }

  lemma {:induction false} FirstStays<T>(f: Input<T>, n: nat, m: nat)
    requires n <= m && First(f, n).Some?
    ensures First(f, m) == First(f, n)
  {
  }

  // ---------- fallible inputs ----------

  /** The input completes at poll `n`, with an error. */
  predicate FailsAt<T, E>(f: Input<Result<T, E>>, n: nat) {
    First(f, n).None? && f(n).Some? && f(n).value.Err?
  }

  /** One input of a fallible join after `n` polls without an error. */
  ghost predicate HeldOk<T, E>(future: Option<Input<Result<T, E>>>, output: Option<T>, polls: seq<nat>,
                               f: Input<Result<T, E>>, n: nat)
  {
    var c := First(f, n);
    && polls == Polls(f, n)
    && if c.None? then future == Some(f) && output == None
       else future.None? && output.Some? && f(c.value) == Some(Ok(output.value))
  }

  lemma PolledOk<T, E>(future: Option<Input<Result<T, E>>>, output: Option<T>, polls: seq<nat>,
                       f: Input<Result<T, E>>, n: nat)
    requires HeldOk(future, output, polls, f, n)
    ensures future.Some? ==> future.value == f && polls + [n] == Polls(f, n + 1)
    ensures FailsAt(f, n) <==> future.Some? && f(n).Some? && f(n).value.Err?
    ensures future.None? ==> HeldOk(future, output, polls, f, n + 1)
    ensures future.Some? && f(n).None? ==> HeldOk(future, output, polls + [n], f, n + 1)
    ensures future.Some? && f(n).Some? && f(n).value.Ok? ==> HeldOk(None, Some(f(n).value.value), polls + [n], f, n + 1)
  {
  }

  class TryZip<T1, T2, E> {
    var future1: Option<Input<Result<T1, E>>>
    var output1: Option<T1>
    var future2: Option<Input<Result<T2, E>>>
    var output2: Option<T2>
    ghost var polls1: seq<nat>
    ghost var polls2: seq<nat>

    /** The state after `n` polls of inputs `f1` and `f2`, none of which failed or found both finished. */
    ghost predicate After(f1: Input<Result<T1, E>>, f2: Input<Result<T2, E>>, n: nat)
      reads this
    {
      && HeldOk(future1, output1, polls1, f1, n) && HeldOk(future2, output2, polls2, f2, n)
      && (output1.None? || output2.None?)
    }

    constructor (f1: Input<Result<T1, E>>, f2: Input<Result<T2, E>>)
      ensures After(f1, f2, 0)
    {
      future1, output1, future2, output2 := Some(f1), None, Some(f2), None;
      polls1, polls2 := [], [];
    }

    /**
     As for `Zip`, but a failing input ends the join at once, the first input before the second. A
     finished input is never polled again, nor the second one in a poll that the first one fails.
     */
    method PollOnce(n: nat, ghost f1: Input<Result<T1, E>>, ghost f2: Input<Result<T2, E>>)
      returns (r: Poll<Result<(T1, T2), E>>)
      requires After(f1, f2, n)
      modifies this
      ensures FailsAt(f1, n) ==> r == Ready(Err(f1(n).value.error))
      ensures !FailsAt(f1, n) && FailsAt(f2, n) ==> r == Ready(Err(f2(n).value.error))
      ensures !FailsAt(f1, n) && !FailsAt(f2, n) ==>
                if Output(f1, n + 1).Some? && Output(f2, n + 1).Some?
                then r.Ready? && r.value.Ok?
                     && Output(f1, n + 1) == Some(Ok(r.value.value.0)) && Output(f2, n + 1) == Some(Ok(r.value.value.1))
                else r.Pending? && After(f1, f2, n + 1)
      ensures polls1 == Polls(f1, n + 1)
      ensures polls2 == if FailsAt(f1, n) then Polls(f2, n) else Polls(f2, n + 1)
    {
      PolledOk(future1, output1, polls1, f1, n);
      PolledOk(future2, output2, polls2, f2, n);
      if future1.Some? {
        polls1 := polls1 + [n];
        var out := future1.value(n);
        if out.Some? {
          match out.value {
            case Ok(t) => output1, future1 := Some(t), None;
            case Err(e) => return Ready(Err(e));
          }
        }
      }
      if future2.Some? {
        polls2 := polls2 + [n];
        var out := future2.value(n);
        if out.Some? {
          match out.value {
            case Ok(t) => output2, future2 := Some(t), None;
            case Err(e) => return Ready(Err(e));
          }
        }
      }
      assert HeldOk(future1, output1, polls1, f1, n + 1) && HeldOk(future2, output2, polls2, f2, n + 1);
      var both;
      both, output1, output2 := TakeZipFromParts(output1, output2);
      r := if both.Ready? then Ready(Ok(both.value)) else Pending;
    }
  }

  /** The first failure decides, the first input winning ties; without failures the join is that of `Zip`. */
  function TryZipOutcome<T1, T2, E>(f1: Input<Result<T1, E>>, f2: Input<Result<T2, E>>, limit: nat)
    : Option<(nat, Result<(T1, T2), E>)>
  {
    var c1, c2 := First(f1, limit), First(f2, limit);
    var e1, e2 := c1.Some? && f1(c1.value).value.Err?, c2.Some? && f2(c2.value).value.Err?;
    if e1 && (!e2 || c1.value <= c2.value) then Some((c1.value, Err(f1(c1.value).value.error)))
    else if e2 then Some((c2.value, Err(f2(c2.value).value.error)))
    else if c1.None? || c2.None? then None
    else Some((Max(c1.value, c2.value), Ok((f1(c1.value).value.value, f2(c2.value).value.value))))
  }

  /** An input whose completion, if any, is not an error, seen as an infallible input. */
  function Successes<T, E>(f: Input<Result<T, E>>): Input<T> {
    (n: nat) => match f(n) case Some(Ok(t)) => Some(t) case _ => None
  }

  lemma SuccessesFirst<T, E>(f: Input<Result<T, E>>, n: nat)
    requires First(f, n).Some? ==> f(First(f, n).value).value.Ok?
    ensures First(Successes(f), n) == First(f, n)
  {
    assert forall k: nat :: f(k).None? ==> Successes(f)(k).None?;
    if First(f, n).Some? {
      assert Successes(f)(First(f, n).value).Some?;
    }
  }

  /** Without a failing input, `TryZip` is `Zip` on the successes: same outcome, same polls of each input. */
  lemma TryZipIsZip<T1, T2, E>(f1: Input<Result<T1, E>>, f2: Input<Result<T2, E>>, limit: nat)
    requires forall n: nat :: n < limit ==> !FailsAt(f1, n) && !FailsAt(f2, n)
    ensures TryZipOutcome(f1, f2, limit)
         == match ZipOutcome(Successes(f1), Successes(f2), limit)
            case None => None
            case Some((n, t1, t2)) => Some((n, Ok((t1, t2))))
    ensures Polls(f1, limit) == Polls(Successes(f1), limit) && Polls(f2, limit) == Polls(Successes(f2), limit)
  {
    NoFailure(f1, limit);
    NoFailure(f2, limit);
    SuccessesFirst(f1, limit);
    SuccessesFirst(f2, limit);
  }

  lemma NoFailure<T, E>(f: Input<Result<T, E>>, limit: nat)
    requires forall n: nat :: n < limit ==> !FailsAt(f, n)
    ensures First(f, limit).Some? ==> f(First(f, limit).value).value.Ok?
  {
    if First(f, limit).Some? {
      var c := First(f, limit).value;
      assert First(f, c).None?;
      assert !FailsAt(f, c);
    }
  }

  predicate OkBefore<T, E>(f: Input<Result<T, E>>, n: nat) {
    First(f, n).Some? ==> f(First(f, n).value).value.Ok?
  }

  lemma Settled<T>(f: Input<T>, n: nat, limit: nat)
    requires n < limit
    ensures First(f, n + 1).Some? ==> First(f, limit) == First(f, n + 1)
    ensures First(f, n).Some? ==> First(f, limit) == First(f, n)
    ensures First(f, n + 1).None? && First(f, limit).Some? ==> First(f, limit).value > n
  {
  }

  lemma TryOutcomeAt<T1, T2, E>(f1: Input<Result<T1, E>>, f2: Input<Result<T2, E>>, n: nat, limit: nat)
    requires n < limit && OkBefore(f1, n) && OkBefore(f2, n)
    requires First(f1, n).None? || First(f2, n).None?
    ensures FailsAt(f1, n) ==> TryZipOutcome(f1, f2, limit) == Some((n, Err(f1(n).value.error)))
    ensures !FailsAt(f1, n) && FailsAt(f2, n) ==> TryZipOutcome(f1, f2, limit) == Some((n, Err(f2(n).value.error)))
    ensures !FailsAt(f1, n) && !FailsAt(f2, n) && Output(f1, n + 1).Some? && Output(f2, n + 1).Some? ==>
              && Output(f1, n + 1).value.Ok? && Output(f2, n + 1).value.Ok?
              && TryZipOutcome(f1, f2, limit)
                 == Some((n, Ok((Output(f1, n + 1).value.value, Output(f2, n + 1).value.value))))
  {
    Settled(f1, n, limit);
    Settled(f2, n, limit);
  }

  /** Polling a `TryZip` until it is ready. */
  method DriveTryZip<T1, T2, E>(f1: Input<Result<T1, E>>, f2: Input<Result<T2, E>>, limit: nat)
    returns (r: Option<(nat, Result<(T1, T2), E>)>)
    ensures r == TryZipOutcome(f1, f2, limit)
  {
    var zip := new TryZip(f1, f2);
    for n := 0 to limit
      invariant zip.After(f1, f2, n)
    {
      TryOutcomeAt(f1, f2, n, limit);
      var p := zip.PollOnce(n, f1, f2);
      if p.Ready? {
        return Some((n, p.value));
      }
    }
    return None;
  }
}
