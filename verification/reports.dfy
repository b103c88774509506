/**
 * How the tests gather their per-mapping findings. The invalid-id test
 * concatenates the entries each mapping contributes. The missing-mapping
 * and overlap tests gather their per-mapping
 * findings: mappings are visited in order, each contributes at most one
 * entry, and the first Ruby exception aborts the whole test.
 */
module Reports {
  import opened Wrappers
  import opened Mappings

  /** The entries of `check` over `ms`, in mapping order, or the first error raised. */
  function Gather<E>(ms: seq<Mapping>, check: Mapping -> Result<Option<E>, CheckError>): (r: Result<seq<E>, CheckError>)
    ensures r.Ok? ==> |r.value| <= |ms|
    decreases |ms|
  {
    if |ms| == 0 then Ok([])
    else match check(ms[0])
      case Err(e) => Err(e)
      case Ok(here) =>
        match Gather(ms[1..], check)
        case Err(e) => Err(e)
        case Ok(rest) => Ok((if here.Some? then [here.value] else []) + rest)
  }

  /** Mapping `i` is the first whose check raises, and it raises `e`. */
  ghost predicate FirstRaise<E>(ms: seq<Mapping>, check: Mapping -> Result<Option<E>, CheckError>, i: int, e: CheckError) {
    0 <= i < |ms| && check(ms[i]) == Err(e) && forall j :: 0 <= j < i ==> check(ms[j]).Ok?
  }

  /** Gathering raises exactly when checking some mapping raises, and then with the first such error. */
  lemma {:induction false} GatherRaisesIff<E>(ms: seq<Mapping>, check: Mapping -> Result<Option<E>, CheckError>)
    ensures Gather(ms, check).Err? <==> exists i :: 0 <= i < |ms| && check(ms[i]).Err?
    ensures Gather(ms, check).Err? ==> exists i :: FirstRaise(ms, check, i, Gather(ms, check).error)
    decreases |ms|
  {
    if |ms| > 0 {
      GatherRaisesIff(ms[1..], check);
      assert forall i :: 1 <= i < |ms| ==> ms[1..][i - 1] == ms[i];
      if check(ms[0]).Ok? && Gather(ms[1..], check).Err? {
        var i :| FirstRaise(ms[1..], check, i, Gather(ms[1..], check).error);
        assert FirstRaise(ms, check, i + 1, Gather(ms, check).error);
      } else if check(ms[0]).Err? {
        assert FirstRaise(ms, check, 0, Gather(ms, check).error);
      }
    }
  }

  /** A gathered report is empty exactly when no mapping yields an entry. */
  lemma {:induction false} GatherEmptyIff<E>(ms: seq<Mapping>, check: Mapping -> Result<Option<E>, CheckError>)
    requires Gather(ms, check).Ok?
    ensures Gather(ms, check).value == [] <==> forall i :: 0 <= i < |ms| ==> check(ms[i]) == Ok(None)
    decreases |ms|
  {
    if |ms| > 0 {
      GatherEmptyIff(ms[1..], check);
      assert forall i :: 1 <= i < |ms| ==> ms[i] == ms[1..][i - 1];
    }
  }

  /** Every gathered entry is the entry some mapping yielded. */
  lemma {:induction false} GatherSound<E>(ms: seq<Mapping>, check: Mapping -> Result<Option<E>, CheckError>, e: E)
    requires Gather(ms, check).Ok?
    requires e in Gather(ms, check).value
    ensures exists i :: 0 <= i < |ms| && check(ms[i]) == Ok(Some(e))
    decreases |ms|
  {
    if check(ms[0]) != Ok(Some(e)) {
      GatherSound(ms[1..], check, e);
      var i :| 0 <= i < |ms[1..]| && check(ms[1..][i]) == Ok(Some(e));
      assert ms[1..][i] == ms[i + 1];
    }
  }

  /** Every entry a mapping yields appears in a gathered report that completes. */
  lemma {:induction false} GatherComplete<E>(ms: seq<Mapping>, check: Mapping -> Result<Option<E>, CheckError>, i: int)
    requires Gather(ms, check).Ok?
    requires 0 <= i < |ms| && check(ms[i]).Ok? && check(ms[i]).value.Some?
    ensures check(ms[i]).value.value in Gather(ms, check).value
    decreases |ms|
  {
    if i > 0 {
      assert ms[1..][i - 1] == ms[i];
      GatherComplete(ms[1..], check, i - 1);
    }
  }

  /** The entries `entries` yields for each of `ms`, concatenated in mapping order. */
  function Concat<E>(ms: seq<Mapping>, entries: Mapping -> seq<E>): (r: seq<E>)
    decreases |ms|
  {
    if |ms| == 0 then [] else entries(ms[0]) + Concat(ms[1..], entries)
  }

  /** When every mapping yields at most `k` entries, the whole report has at most `k` per mapping. */
  lemma {:induction false} ConcatLength<E>(ms: seq<Mapping>, entries: Mapping -> seq<E>, k: nat)
    requires forall i :: 0 <= i < |ms| ==> |entries(ms[i])| <= k
    ensures |Concat(ms, entries)| <= k * |ms|
    decreases |ms|
  {
    if |ms| > 0 {
      assert forall i :: 1 <= i < |ms| ==> ms[1..][i - 1] == ms[i];
      ConcatLength(ms[1..], entries, k);
      assert k * |ms| == k + k * |ms[1..]|;
    }
  }

  /** A concatenated report is empty exactly when no mapping yields an entry. */
  lemma {:induction false} ConcatEmptyIff<E>(ms: seq<Mapping>, entries: Mapping -> seq<E>)
    ensures Concat(ms, entries) == [] <==> forall i :: 0 <= i < |ms| ==> entries(ms[i]) == []
    decreases |ms|
  {
    if |ms| > 0 {
      ConcatEmptyIff(ms[1..], entries);
      assert forall i :: 1 <= i < |ms| ==> ms[i] == ms[1..][i - 1];
    }
  }

  /** Every entry of a concatenated report was yielded by some mapping. */
  lemma {:induction false} ConcatSound<E>(ms: seq<Mapping>, entries: Mapping -> seq<E>, e: E)
    requires e in Concat(ms, entries)
    ensures exists i :: 0 <= i < |ms| && e in entries(ms[i])
    decreases |ms|
  {
    if e !in entries(ms[0]) {
      ConcatSound(ms[1..], entries, e);
      var i :| 0 <= i < |ms[1..]| && e in entries(ms[1..][i]);
      assert ms[1..][i] == ms[i + 1];
    }
  }

  /** Every entry any mapping yields appears in the concatenated report. */
  lemma {:induction false} ConcatComplete<E>(ms: seq<Mapping>, entries: Mapping -> seq<E>, i: int, e: E)
    requires 0 <= i < |ms| && e in entries(ms[i])
    ensures e in Concat(ms, entries)
    decreases |ms|
  {
    if i > 0 {
      assert ms[1..][i - 1] == ms[i];
      ConcatComplete(ms[1..], entries, i - 1, e);
    }
  }
}
