/** Small value types shared by both scripts' models. */
module Common {

  /** A value that may be absent: Python's `None` or a present value. */
  datatype Option<T> = None | Some(value: T)

  /** The outcome of an operation that may raise: a value, or the exception it raises. */
  datatype Result<T, E> = Ok(value: T) | Err(error: E)

  /** `idx` lists strictly increasing positions, each below `n`: how a filter's
      output is placed in its input. */
  predicate IncreasingBelow(idx: seq<nat>, n: nat)
  {
    && (forall k :: 0 <= k < |idx| ==> idx[k] < n)
    && (forall k, l :: 0 <= k < l < |idx| ==> idx[k] < idx[l])
  }

  /** One step of a filter over `flags`: if `prev` lists, in increasing order,
      the positions of the `true` flags before the last one, then adding the
      last position when its flag is set lists all of them. */
  lemma ExtendSelection(flags: seq<bool>, prev: seq<nat>) returns (idx: seq<nat>)
    requires flags != []
    requires IncreasingBelow(prev, |flags| - 1)
    requires forall i :: 0 <= i < |flags| - 1 ==> (flags[i] <==> i in prev)
    ensures idx == if flags[|flags| - 1] then prev + [|flags| - 1] else prev
    ensures IncreasingBelow(idx, |flags|)
    ensures forall i :: 0 <= i < |flags| ==> (flags[i] <==> i in idx)
  {
    var n := |flags| - 1;
    idx := if flags[n] then prev + [n] else prev;
    forall i | 0 <= i < |flags| ensures flags[i] <==> i in idx {
      if i < n {
        assert i in idx <==> i in prev;
      } else if flags[n] {
        assert idx[|prev|] == n;
      }
    }
  }

  /** Apply `f` to each element in order and keep the present results: a
      loop that skips some elements and appends a value for the others. */
  function FilterMap<T, U>(s: seq<T>, f: T -> Option<U>): seq<U>
  {
    if s == [] then []
    else
      var last := f(s[|s| - 1]);
      FilterMap(s[..|s| - 1], f) + (if last.Some? then [last.value] else [])
  }

  /** An element yields an output exactly when `f` gives a value for it, and
      the outputs keep input order: `idx` places each output at the element
      that produced it. */
  lemma {:induction false} FilterMapSelection<T, U>(s: seq<T>, f: T -> Option<U>) returns (idx: seq<nat>)
    ensures |idx| == |FilterMap(s, f)|
    ensures IncreasingBelow(idx, |s|)
    ensures forall k {:trigger FilterMap(s, f)[k]} :: 0 <= k < |idx| ==> f(s[idx[k]]) == Some(FilterMap(s, f)[k])
    ensures forall i :: 0 <= i < |s| ==> (f(s[i]).Some? <==> i in idx)
  {
    if s == [] {
      idx := [];
    } else {
      var n := |s| - 1;
      var init := s[..n];
      var prev := FilterMapSelection(init, f);
      var flags := seq(|s|, i requires 0 <= i < |s| => f(s[i]).Some?);
      forall i | 0 <= i < n ensures flags[i] <==> i in prev {
        assert s[i] == init[i];
      }
      idx := ExtendSelection(flags, prev);
      assert FilterMap(s, f) == FilterMap(init, f) + (if flags[n] then [f(s[n]).value] else []);
      forall k | 0 <= k < |prev| ensures f(s[idx[k]]) == Some(FilterMap(s, f)[k]) {
        assert s[idx[k]] == init[prev[k]];
      }
    }
  }

  /** Never more outputs than inputs. */
  lemma {:induction false} FilterMapLength<T, U>(s: seq<T>, f: T -> Option<U>)
    ensures |FilterMap(s, f)| <= |s|
  {
    if s != [] {
      FilterMapLength(s[..|s| - 1], f);
    }
  }

  /** Extending a prefix by one element extends its outputs by that
      element's output, if any: the step a loop over `s` takes. */
  lemma FilterMapStep<T, U>(s: seq<T>, f: T -> Option<U>, i: nat)
    requires i < |s|
    ensures FilterMap(s[..i + 1], f) == FilterMap(s[..i], f) + (if f(s[i]).Some? then [f(s[i]).value] else [])
  {
    assert s[..i + 1][..i] == s[..i];
  }
}
