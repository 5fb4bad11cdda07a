/**
  The multiple-select question card (src/components/QuestionMultipleSelect.tsx): the ticked answer
  ids, toggled one click at a time, and the submit button.
*/
module QuestionMultipleSelect {
  import opened QuizTypes

  /** No answer id is listed twice. */
  predicate NoDuplicates(s: seq<int>) {
    forall i, j :: 0 <= i < j < |s| ==> s[i] != s[j]
  }

  /** `s.filter((x) => x !== id)`: every occurrence of `id` dropped, the rest kept in order. */
  function Without(s: seq<int>, id: int): (r: seq<int>)
    ensures |r| <= |s|
    ensures forall x :: x in r <==> x in s && x != id
  {
    if s == [] then []
    else (if s[0] == id then [] else [s[0]]) + Without(s[1..], id)
  }

  /** `toggleAnswer`: nothing changes once the player has answered; otherwise a ticked id is unticked
      and an unticked one is ticked. */
  function Toggle(selected: seq<int>, id: int, hasAnswered: bool): (r: seq<int>)
    ensures hasAnswered ==> r == selected
    ensures !hasAnswered ==> forall x :: x in r <==> (x in selected <==> x != id)
  {
    if hasAnswered then selected
    else if id in selected then Without(selected, id)
    else selected + [id]
  }

  /** `handleSubmit`: an empty selection only raises an alert (none); otherwise `onAnswer` receives
      the selection as it stands. */
  function Submit(selected: seq<int>): (answerIds: Option<seq<int>>)
    ensures answerIds.None? <==> selected == []
    ensures answerIds.Some? ==> answerIds.value == selected
  {
    if |selected| == 0 then None else Some(selected)
  }

  /** Ticking a new id appends it after the ids already ticked. */
  lemma ToggleAppends(selected: seq<int>, id: int)
    requires id !in selected
    ensures Toggle(selected, id, false) == selected + [id]
  {
  }

  /** Without duplicates, the ids before and after `id` keep their order. */
  lemma {:induction false} WithoutSingle(s: seq<int>, k: nat)
    requires NoDuplicates(s) && k < |s|
    ensures Without(s, s[k]) == s[..k] + s[k + 1..]
  {
    if k == 0 {
      assert s[k] !in s[1..];
      WithoutAbsent(s[1..], s[k]);
    } else {
      var t := s[1..];
      assert NoDuplicates(t);
      assert t[k - 1] == s[k] && s[0] != s[k];
      calc {
        Without(s, s[k]);
        [s[0]] + Without(t, s[k]);
        { WithoutSingle(t, k - 1); }
        [s[0]] + (t[..k - 1] + t[k..]);
        ([s[0]] + t[..k - 1]) + t[k..];
        { assert [s[0]] + t[..k - 1] == s[..k]; assert t[k..] == s[k + 1..]; }
        s[..k] + s[k + 1..];
      }
    }
  }

  /** Removing an id that is not there changes nothing. */
  lemma {:induction false} WithoutAbsent(s: seq<int>, id: int)
    requires id !in s
    ensures Without(s, id) == s
  {
    if s != [] {
      WithoutAbsent(s[1..], id);
      assert [s[0]] + s[1..] == s;
    }
  }

  /** Unticking the id at position `k` removes exactly that position. */
  lemma ToggleRemoves(selected: seq<int>, k: nat)
    requires NoDuplicates(selected) && k < |selected|
    ensures Toggle(selected, selected[k], false) == selected[..k] + selected[k + 1..]
  {
    WithoutSingle(selected, k);
  }

  /** A selection without duplicates keeps none after any toggle. */
  lemma ToggleKeepsNoDuplicates(selected: seq<int>, id: int, hasAnswered: bool)
    requires NoDuplicates(selected)
    ensures NoDuplicates(Toggle(selected, id, hasAnswered))
  {
    if !hasAnswered && id in selected {
      var k :| 0 <= k < |selected| && selected[k] == id;
      WithoutSingle(selected, k);
      var r := selected[..k] + selected[k + 1..];
      forall i, j | 0 <= i < j < |r| ensures r[i] != r[j] {
        var i' := if i < k then i else i + 1;
        var j' := if j < k then j else j + 1;
        assert r[i] == selected[i'] && r[j] == selected[j'];
      }
    }
  }

  /** Ticking an id and unticking it again gives back the selection as it was. */
  lemma ToggleTwice(selected: seq<int>, id: int)
    requires id !in selected
    ensures Toggle(Toggle(selected, id, false), id, false) == selected
  {
    var t := selected + [id];
    WithoutAbsent(selected, id);
    assert Without(t, id) == Without(selected, id) + Without([id], id) by {
      WithoutConcat(selected, [id], id);
    }
  }

  lemma {:induction false} WithoutConcat(a: seq<int>, b: seq<int>, id: int)
    ensures Without(a + b, id) == Without(a, id) + Without(b, id)
  {
    if a == [] {
      assert a + b == b;
    } else {
      assert (a + b)[1..] == a[1..] + b;
      WithoutConcat(a[1..], b, id);
    }
  }
}
