/** Option and Result, the model's stand-ins for Python's None / NaN and for raised exceptions, and the sequence-of-options helpers the loops are specified by. */
module Wrappers {

  datatype Option<+T> = None | Some(value: T)

  datatype Result<+T, +E> = Ok(value: T) | Err(error: E)

  /** The first position holding `None`, if there is one. */
  function FirstNone<T>(s: seq<Option<T>>): (r: Option<nat>)
    ensures r.None? <==> forall k :: 0 <= k < |s| ==> s[k].Some?
    ensures r.Some? ==> r.value < |s| && s[r.value].None? && forall k :: 0 <= k < r.value ==> s[k].Some?
    decreases |s|
  {
    if |s| == 0 then None
    else
      var front := FirstNone(s[..|s| - 1]);
      assert forall k :: 0 <= k < |s| - 1 ==> s[..|s| - 1][k] == s[k];
      if front.Some? then front
      else if s[|s| - 1].None? then Some(|s| - 1)
      else None
  }

  lemma FirstNoneAt<T>(s: seq<Option<T>>, k: nat)
    requires k < |s| && s[k].None? && forall j :: 0 <= j < k ==> s[j].Some?
    ensures FirstNone(s) == Some(k)
  {
  }

  /** The values present in a sequence of options, in order. */
  function Present<T>(s: seq<Option<T>>): (r: seq<T>)
    ensures |r| <= |s|
    decreases |s|
  {
    if |s| == 0 then []
    else Present(s[..|s| - 1]) + (if s[|s| - 1].Some? then [s[|s| - 1].value] else [])
  }

  /** A value is present exactly when some position holds it. */
  lemma {:induction false} PresentMembers<T>(s: seq<Option<T>>)
    ensures forall x :: x in Present(s) <==> exists k :: 0 <= k < |s| && s[k] == Some(x)
    decreases |s|
  {
    if |s| > 0 {
      var n := |s| - 1;
      PresentMembers(s[..n]);
      forall x ensures x in Present(s) <==> exists k :: 0 <= k < |s| && s[k] == Some(x) {
        if x in Present(s[..n]) {
          var k :| 0 <= k < n && s[..n][k] == Some(x);
          assert s[k] == Some(x);
        }
        if exists k :: 0 <= k < |s| && s[k] == Some(x) {
          var k :| 0 <= k < |s| && s[k] == Some(x);
          if k < n {
            assert s[..n][k] == Some(x);
          }
        }
      }
    }
  }

  lemma PresentIndex<T>(s: seq<Option<T>>, x: T) returns (k: nat)
    requires x in Present(s)
    ensures k < |s| && s[k] == Some(x)
  {
    PresentMembers(s);
    k :| 0 <= k < |s| && s[k] == Some(x);
  }

  /** The value at a present position is in the result. */
  lemma PresentHas<T>(s: seq<Option<T>>, k: nat)
    requires k < |s| && s[k].Some?
    ensures s[k].value in Present(s)
  {
    PresentMembers(s);
  }

  /** The prefix as long as the sequence is the sequence. */
  lemma WholePrefix<T>(s: seq<T>)
    ensures s[..|s|] == s
  {
  }

  lemma PresentStep<T>(s: seq<Option<T>>, k: nat)
    requires k < |s|
    ensures Present(s[..k + 1]) == Present(s[..k]) + (if s[k].Some? then [s[k].value] else [])
  {
    assert s[..k + 1][..k] == s[..k];
  }
}
