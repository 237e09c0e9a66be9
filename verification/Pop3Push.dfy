/**
 What QUIT tells IMAP: the numbers of the deleted messages, in whatever order the map of marks yields them, as EXPUNGEs
 for the sessions that have the INBOX selected.
 */
module Pop3Push {
  import ExpungeReplay
  import opened MailTable
  import opened Pop3Session
  import opened Wrappers

  /** The numbers are those of the set, each once. */
  ghost predicate Enumerates(seqs: seq<nat>, numbers: set<nat>) {
    multiset(seqs) == multiset(numbers)
  }

  lemma EnumeratedOnce(seqs: seq<nat>, numbers: set<nat>)
    requires Enumerates(seqs, numbers)
    ensures ExpungeReplay.Distinct(seqs) && forall n: nat :: n in numbers <==> n in seqs
  {
    forall n: nat ensures n in numbers <==> n in seqs {
      assert n in multiset(numbers) <==> n in multiset(seqs);
    }
    forall i, j | 0 <= i < j < |seqs| ensures seqs[i] != seqs[j] {
      assert seqs == seqs[..j] + seqs[j..];
      assert seqs[i] == seqs[..j][i] && seqs[j] == seqs[j..][0];
      assert multiset(seqs[..j])[seqs[i]] >= 1 && multiset(seqs[j..])[seqs[j]] >= 1;
      assert multiset(numbers)[seqs[i]] <= 1;
    }
  }

  /** The numbers of the session still number the mailbox: nothing came or went since PASS. */
  ghost predicate Current(es: seq<Entry>, list: Rows) {
    |es| == |list| && forall i :: 0 <= i < |es| ==> es[i].id == list[i].id
  }

  lemma {:induction false} LeftIds(list: Rows, es: seq<Entry>, numbers: set<nat>, seqs: seq<nat>, k: nat)
    requires Keyed(list) && Current(es, list) && k <= |list|
    requires forall n: nat :: n in numbers <==> n in seqs
    requires forall n: nat :: n in numbers ==> 1 <= n <= |es|
    ensures Ids(Without(list[..k], IdsOf(es, numbers))) == ExpungeReplay.Remaining(Ids(list), seqs, k)
  {
    if k == 0 {
      assert list[..0] == [];
    } else {
      LeftIds(list, es, numbers, seqs, k - 1);
      var gone := IdsOf(es, numbers);
      assert list[..k] == list[..k - 1] + [list[k - 1]];
      FilterSnoc(list[..k - 1], list[k - 1], NotIn(gone));
      MarkedGone(list, es, numbers, seqs, k);
    }
  }

  lemma MarkedGone(list: Rows, es: seq<Entry>, numbers: set<nat>, seqs: seq<nat>, k: nat)
    requires Keyed(list) && Current(es, list) && 1 <= k <= |list|
    requires forall n: nat :: n in numbers <==> n in seqs
    requires forall n: nat :: n in numbers ==> 1 <= n <= |es|
    ensures list[k - 1].id in IdsOf(es, numbers) <==> !ExpungeReplay.Kept(seqs, k - 1)
  {
    if list[k - 1].id in IdsOf(es, numbers) {
      var n: nat :| n in numbers && 1 <= n <= |es| && es[n - 1].id == list[k - 1].id;
      assert n == k;
      assert k in seqs;
    }
    if !ExpungeReplay.Kept(seqs, k - 1) {
      assert k in seqs;
      assert es[k - 1].id == list[k - 1].id;
    }
  }

  /** The new listing of the INBOX, when the numbers are deleted from the table. */
  function AfterQuit(rows: Rows, user: nat, gone: set<nat>): seq<nat> {
    Ids(Listing(Without(rows, gone), user, "INBOX"))
  }

  /**
   With a current snapshot, an IMAP client in step that reads the numbers pushed ends in step exactly if the map happened
   to yield them in descending order.
   */
  lemma PushedOrderIff(rows: Rows, user: nat, s: State, failing: set<nat>, seqs: seq<nat>)
    requires Keyed(rows) && Current(s.entries, Listing(rows, user, "INBOX")) && Enumerates(seqs, Done(s, failing))
    ensures var before := Ids(Listing(rows, user, "INBOX"));
            ExpungeReplay.Replay(before, seqs) == Some(AfterQuit(rows, user, IdsOf(s.entries, Done(s, failing))))
            <==> ExpungeReplay.Descending(seqs)
  {
    var list, numbers := Listing(rows, user, "INBOX"), Done(s, failing);
    FilterKeeps(rows, InFolder(user, "INBOX"));
    EnumeratedOnce(seqs, numbers);
    assert forall i :: 0 <= i < |seqs| ==> seqs[i] in seqs;
    LeftIds(list, s.entries, numbers, seqs, |list|);
    assert list[..|list|] == list;
    ListingWithout(rows, IdsOf(s.entries, numbers), user, "INBOX");
    ExpungeReplay.AnyOrderReplayIff(Ids(list), seqs);
  }

  lemma {:induction false} SomeOrder(numbers: set<nat>) returns (seqs: seq<nat>)
    ensures Enumerates(seqs, numbers) && |seqs| == |numbers|
    decreases numbers
  {
    if numbers == {} {
      seqs := [];
    } else {
      var n: nat :| n in numbers;
      var rest := SomeOrder(numbers - {n});
      seqs := rest + [n];
      assert numbers == (numbers - {n}) + {n};
    }
  }

  lemma {:induction false} ReversedEnumerates(seqs: seq<nat>, numbers: set<nat>)
    requires Enumerates(seqs, numbers)
    ensures Enumerates(ExpungeReplay.Reversed(seqs), numbers)
  {
    ReversedMultiset(seqs);
  }

  lemma {:induction false} ReversedMultiset(seqs: seq<nat>)
    ensures multiset(ExpungeReplay.Reversed(seqs)) == multiset(seqs)
  {
    if seqs != [] {
      var k := |seqs| - 1;
      ReversedMultiset(seqs[..k]);
      assert seqs == seqs[..k] + [seqs[k]];
      assert ExpungeReplay.Reversed(seqs) == [seqs[k]] + ExpungeReplay.Reversed(seqs[..k]);
    }
  }

  ghost predicate RightInOrder(rows: Rows, user: nat, s: State, failing: set<nat>, seqs: seq<nat>) {
    ExpungeReplay.Replay(Ids(Listing(rows, user, "INBOX")), seqs)
    == Some(AfterQuit(rows, user, IdsOf(s.entries, Done(s, failing))))
  }

  /** With a current snapshot, every order of the map leads IMAP clients right exactly if at most one message is deleted. */
  lemma EveryOrderIff(rows: Rows, user: nat, s: State, failing: set<nat>)
    requires Keyed(rows) && Current(s.entries, Listing(rows, user, "INBOX"))
    ensures (forall seqs :: Enumerates(seqs, Done(s, failing)) ==> RightInOrder(rows, user, s, failing, seqs))
            <==> |Done(s, failing)| <= 1
  {
    var numbers := Done(s, failing);
    forall seqs | Enumerates(seqs, numbers)
      ensures RightInOrder(rows, user, s, failing, seqs) <==> ExpungeReplay.Descending(seqs)
      ensures |seqs| == |numbers|
    {
      PushedOrderIff(rows, user, s, failing, seqs);
      assert |multiset(seqs)| == |seqs| && |multiset(numbers)| == |numbers|;
    }
    hide RightInOrder;
    var seqs := SomeOrder(numbers);
    if |numbers| >= 2 {
      var back := ExpungeReplay.Reversed(seqs);
      ReversedEnumerates(seqs, numbers);
      assert back[|seqs| - 1] == seqs[0] && back[0] == seqs[|seqs| - 1];
      assert !(ExpungeReplay.Descending(seqs) && ExpungeReplay.Descending(back));
    }
  }

  lemma OneGone(list: Rows, k: nat)
    requires Keyed(list) && k < |list|
    ensures Ids(Without(list, {list[k].id})) == ExpungeReplay.RemoveAt(Ids(list), k + 1)
  {
    var es, one: seq<nat> := Load(list), [k + 1];
    assert IdsOf(es, {k + 1}) == {list[k].id} by {
      assert es[k].id == list[k].id;
    }
    hide Filter, IdsOf, Keyed, ExpungeReplay.Remaining, ExpungeReplay.RemoveAt;
    LeftIds(list, es, {k + 1}, one, |list|);
    assert list[..|list|] == list;
    OneRemains(Ids(list), k + 1);
  }

  lemma ListedGone(rows: Rows, user: nat, k: nat)
    requires Keyed(rows) && k < |Listing(rows, user, "INBOX")|
    ensures var list := Listing(rows, user, "INBOX");
            AfterQuit(rows, user, {list[k].id}) == ExpungeReplay.RemoveAt(Ids(list), k + 1)
  {
    var list := Listing(rows, user, "INBOX");
    FilterKeeps(rows, InFolder(user, "INBOX"));
    ListingWithout(rows, {list[k].id}, user, "INBOX");
    OneGone(list, k);
  }

  lemma UnlistedStays(rows: Rows, user: nat, id: nat)
    requires Keyed(rows) && id !in Ids(Listing(rows, user, "INBOX"))
    ensures AfterQuit(rows, user, {id}) == Ids(Listing(rows, user, "INBOX"))
  {
    var list := Listing(rows, user, "INBOX");
    ListingWithout(rows, {id}, user, "INBOX");
    forall m | m in list ensures m.id != id {
      var i :| 0 <= i < |list| && list[i] == m;
      assert Ids(list)[i] == m.id;
    }
    FilterAll(list, NotIn({id}));
  }

  /** With a snapshot gone stale even one number is right only if the message still stands there. */
  lemma StaleNumberIff(rows: Rows, user: nat, n: nat, id: nat)
    requires Keyed(rows) && n >= 1
    ensures var before := Ids(Listing(rows, user, "INBOX"));
            ExpungeReplay.Replay(before, [n]) == Some(AfterQuit(rows, user, {id}))
            <==> n <= |before| && before[n - 1] == id
  {
    var list := Listing(rows, user, "INBOX");
    var before := Ids(list);
    FilterKeeps(rows, InFolder(user, "INBOX"));
    assert ExpungeReplay.Distinct(before);
    assert [n][1..] == [];
    hide Filter, AfterQuit;
    if id in before {
      var k :| 0 <= k < |before| && before[k] == id;
      ListedGone(rows, user, k);
      if n <= |before| {
        OtherRemoved(before, n, k + 1);
      }
    } else {
      UnlistedStays(rows, user, id);
    }
  }

  lemma OneRemains(view: seq<nat>, p: nat)
    requires 1 <= p <= |view|
    ensures ExpungeReplay.Remaining(view, [p], |view|) == ExpungeReplay.RemoveAt(view, p)
  {
    var one: seq<nat> := [p];
    assert ExpungeReplay.Descending(one);
    ExpungeReplay.DescendingRemains(view, one);
    assert one[1..] == [];
  }

  lemma OtherRemoved(view: seq<nat>, p: nat, q: nat)
    requires ExpungeReplay.Distinct(view) && 1 <= p <= |view| && 1 <= q <= |view|
    ensures ExpungeReplay.RemoveAt(view, p) == ExpungeReplay.RemoveAt(view, q) <==> p == q
  {
    var a, b := ExpungeReplay.RemoveAt(view, p), ExpungeReplay.RemoveAt(view, q);
    if p < q {
      assert a[p - 1] == view[p] && b[p - 1] == view[p - 1];
    } else if q < p {
      assert b[q - 1] == view[q] && a[q - 1] == view[q - 1];
    }
  }
}
