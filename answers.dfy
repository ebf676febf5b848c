/** The answer aggregation shared by app.py's answer_questions and the
    /ask_questions/ route: the sentinel answer, the rule that turns a model
    answer into the stored one, and the answers dictionary filled question
    by question. */
module Answers {
  import opened Text

  /** The literal stored when no answer is available. */
  const Sentinel: string := "Data Not Available"

  /** The separator placed between the retrieved chunks in the context. */
  const ContextSeparator: string := "\n\n"

  /** `answer if answer and answer != "Data Not Available" else
      "Data Not Available"`: the stored value is the model's answer itself
      exactly when that answer is not empty, and the sentinel otherwise. */
  function Normalize(answer: string): (r: string)
    ensures r == answer || r == Sentinel
    ensures r == answer <==> answer != ""
    ensures r == Sentinel <==> answer == "" || answer == Sentinel
  {
    if answer != "" && answer != Sentinel then answer else Sentinel
  }

  /** The dictionary built by `answers[qs[i]] = vs[i]` for i = 0, 1, ... */
  function Collect(qs: seq<string>, vs: seq<string>): (m: map<string, string>)
    requires |qs| == |vs|
    ensures forall q :: q in m <==> q in qs
    decreases |qs|
  {
    if qs == [] then map[]
    else
      var n := |qs|;
      assert forall q :: q in qs <==> q in qs[..n - 1] || q == qs[n - 1] by {
        assert qs == qs[..n - 1] + [qs[n - 1]];
      }
      Collect(qs[..n - 1], vs[..n - 1])[qs[n - 1] := vs[n - 1]]
  }

  /** Position i holds the last occurrence of its question. */
  predicate LastOccurrence(qs: seq<string>, i: int) {
    0 <= i < |qs| && forall j :: i < j < |qs| ==> qs[j] != qs[i]
  }

  /** Duplicate questions collapse to one key, whose value is the one written
      last. */
  lemma {:induction false} CollectLastWins(qs: seq<string>, vs: seq<string>, i: int)
    requires |qs| == |vs| && LastOccurrence(qs, i)
    ensures qs[i] in Collect(qs, vs) && Collect(qs, vs)[qs[i]] == vs[i]
    decreases |qs|
  {
    var n := |qs|;
    if i < n - 1 {
      assert qs[n - 1] != qs[i];
      assert LastOccurrence(qs[..n - 1], i);
      CollectLastWins(qs[..n - 1], vs[..n - 1], i);
    }
  }

  /** Every question has a last occurrence. */
  lemma {:induction false} HasLastOccurrence(qs: seq<string>, q: string) returns (i: int)
    requires q in qs
    ensures LastOccurrence(qs, i) && qs[i] == q
    decreases |qs|
  {
    var n := |qs|;
    if qs[n - 1] == q {
      i := n - 1;
    } else {
      assert q in qs[..n - 1] by {
        var k :| 0 <= k < n && qs[k] == q;
        assert qs[..n - 1][k] == q;
      }
      i := HasLastOccurrence(qs[..n - 1], q);
      assert qs[..n - 1][i] == qs[i];
    }
  }

  /** Every value in the dictionary was written for its key. */
  lemma CollectValues(qs: seq<string>, vs: seq<string>, q: string)
    requires |qs| == |vs| && q in Collect(qs, vs)
    ensures exists i :: 0 <= i < |qs| && qs[i] == q && Collect(qs, vs)[q] == vs[i]
  {
    assert q in qs;
    var i := HasLastOccurrence(qs, q);
    CollectLastWins(qs, vs, i);
  }
}
