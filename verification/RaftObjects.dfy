/** The objects take the steps of the cluster: an election counted from a list of replies, and calls that go out and
    come back. */
module RaftObjects {
  import opened Common
  import opened RaftLog
  import opened RaftQuorum
  import opened RaftServer
  import opened RaftCluster
  import opened RaftPersist
  import opened RaftMember

  /** The replies in the order they come in; a member whose call failed leaves an empty one. */
  function Replies(order: seq<Id>, answers: Answers): seq<(nat, bool)> {
    if order == [] then []
    else
      var l := |order| - 1;
      Replies(order[..l], answers) + [if order[l] in answers then answers[order[l]] else (0, false)]
  }

  /** Every other member is asked once. */
  ghost predicate AsksOthers(order: seq<Id>, n: nat, me: Id) {
    && (forall i, j :: 0 <= i < j < |order| ==> order[i] != order[j])
    && (forall m: nat :: m in order <==> m < n && m != me)
  }

  /** Those in `order` that said yes. */
  ghost function Yes(order: seq<Id>, answers: Answers): set<Id> {
    set m | m in order && m in answers && answers[m].1
  }

  lemma {:induction false} OksCounts(order: seq<Id>, answers: Answers)
    requires forall i, j :: 0 <= i < j < |order| ==> order[i] != order[j]
    ensures Oks(Replies(order, answers)) == |Yes(order, answers)|
  {
    if order != [] {
      var l := |order| - 1;
      var front, m, r := order[..l], order[l], Replies(order, answers);
      OksCounts(front, answers);
      assert r[..|r| - 1] == Replies(front, answers);
      assert m !in front;
      assert order == front + [m];
      if m in answers && answers[m].1 {
        assert Yes(order, answers) == Yes(front, answers) + {m};
      } else {
        assert Yes(order, answers) == Yes(front, answers);
      }
    }
  }

  lemma {:induction false} HighestBounds(order: seq<Id>, answers: Answers)
    ensures var h := Highest(Replies(order, answers));
            && (forall m :: m in order && m in answers ==> answers[m].0 <= h)
            && (h == 0 || exists m :: m in answers && answers[m].0 == h)
  {
    if order != [] {
      var l := |order| - 1;
      var front, r := order[..l], Replies(order, answers);
      HighestBounds(front, answers);
      assert r[..|r| - 1] == Replies(front, answers);
      assert order == front + [order[l]];
    }
  }

  /** Counting the replies is counting the granted votes, and the highest term reported is the guard's. */
  lemma TallyIsCount(s: Cluster, i: Id, order: seq<Id>, answers: Answers)
    requires AllWired(s) && i < |s.servers| && s.servers[i].electing.Some? && AsksOthers(order, |s.servers|, i)
    requires forall m :: m in answers ==> m < |s.servers| && m != i
    requires forall m :: m in answers ==>
               VoteReply(s.servers[i].electing.value, i, m, answers[m].0, answers[m].1) in s.net
    ensures Oks(Replies(order, answers)) == |Granted(answers)|
    ensures Enabled(s, RaftCluster.CountVotes(i, answers, Highest(Replies(order, answers))))
  {
    OksCounts(order, answers);
    HighestBounds(order, answers);
    forall m | m in answers ensures m in order {
      assert m < |s.servers| && m != i;
    }
    assert Yes(order, answers) == Granted(answers);
  }

  /** A member that stands where the cluster says it does. */
  ghost predicate Plays(member: Member, s: Cluster, i: Id)
    reads member, member.p
  {
    member.Valid() && i < |s.servers| == member.n && member.me == i && member.State() == s.servers[i]
  }

  /** The end of an election on the object is the step of the cluster. */
  method CountReplies(member: Member, ghost s: Cluster, order: seq<Id>, answers: Answers)
    requires AllWired(s) && Plays(member, s, member.me) && AsksOthers(order, member.n, member.me)
    requires s.servers[member.me].electing.Some?
    requires forall m :: m in answers ==> m < member.n && m != member.me
    requires forall m :: m in answers ==>
               VoteReply(s.servers[member.me].electing.value, member.me, m, answers[m].0, answers[m].1) in s.net
    modifies member, member.p
    ensures Enabled(s, RaftCluster.CountVotes(member.me, answers, Highest(Replies(order, answers))))
    ensures Plays(member, Step(s, RaftCluster.CountVotes(member.me, answers, Highest(Replies(order, answers)))),
                member.me)
  {
    TallyIsCount(s, member.me, order, answers);
    member.CountVotes(Replies(order, answers));
  }

  /** Sending on the object is the step of the cluster, with the message that goes on the network. */
  method SendCall(member: Member, ghost s: Cluster, m: Id) returns (c: Option<WireCall>)
    requires AllWired(s) && Plays(member, s, member.me) && m < member.n && m != member.me && member.role == Leader
    requires member.calls[m] == None
    modifies member`calls
    ensures c.Some? <==> Enabled(s, Send(member.me, m))
    ensures c.Some? ==> Plays(member, Step(s, Send(member.me, m)), member.me)
                        && AppendRequest(ViewCall(c.value)) in Step(s, Send(member.me, m)).net
  {
    c := member.SendAppend(m);
  }

  /** An answer that is on the network, handled on the object, is the step of the cluster. */
  method ReceiveAnswer(member: Member, ghost s: Cluster, m: Id, count: nat, result: AppendResult)
    requires AllWired(s) && Plays(member, s, member.me) && m < member.n && member.calls[m].Some?
    requires count == |member.calls[m].value.batch| && AppendReply(member.calls[m].value, result) in s.net
    modifies member`nextIndex, member`matchIndex, member`calls
    ensures Enabled(s, Receive(member.me, m, result))
    ensures Plays(member, Step(s, Receive(member.me, m, result)), member.me)
  {
    member.HandleReply(m, count, Some(result));
  }
}
