/**
 * The invalid-share branch of BGW_AWAITING_PjQj (BGWProtocolActor.java:71-76)
 * evaluates two terminal operations, `count()` and then `forEach(...)`, on
 * one `java.util.stream.Stream`. A Java stream may be consumed only once: the
 * second terminal operation throws `IllegalStateException` ("stream has
 * already been operated upon or closed"). As written, the branch therefore
 * sends no complaint and never reaches `stop()` with its failure reason,
 * whenever some share is invalid.
 *
 * The transition function in BGWProtocol models the evident intent: the
 * invalid senders are collected once into a list whose size is tested and
 * whose elements are each broadcast as a complaint.
 */
module StreamReuse {
  import opened BGWTypes
  import opened BGWData
  import opened BGWProtocol
  import opened BGWProperties

  /** A stream: its elements, and whether a terminal operation has already consumed it. */
  datatype Stream<T> = Stream(elems: seq<T>, consumed: bool)

  /** The outcome of a terminal operation: a value, or the exception a reused stream throws. */
  datatype Eval<R> = Ok(value: R) | IllegalStateException

  /** `count()`: the number of elements, and a stream that is now consumed. */
  function Count<T>(s: Stream<T>): (Eval<nat>, Stream<T>) {
    if s.consumed then (IllegalStateException, s) else (Ok(|s.elems|), s.(consumed := true))
  }

  /** `forEach(id -> broadCast(new Complaint(id), targets))`: the complaint sends, unless the stream is consumed. */
  function ForEachComplaint(master: Actor, targets: seq<Actor>, s: Stream<Key>): Eval<seq<Send>> {
    if s.consumed then IllegalStateException else Ok(Complaints(master, targets, s.elems))
  }

  /**
   * The branch as written: `badActors.count() > 0`, then `badActors.forEach`
   * on the same stream. `Ok(None)` is the case where the branch is not taken.
   */
  function InvalidShareBranchAsWritten(master: Actor, targets: seq<Actor>, bad: seq<Key>): Eval<Option<seq<Send>>> {
    var (n, s) := Count(Stream(bad, false));
    if n.IllegalStateException? then IllegalStateException
    else if n.value > 0 then
      var sends := ForEachComplaint(master, targets, s);
      if sends.IllegalStateException? then IllegalStateException else Ok(Some(sends.value))
    else Ok(None)
  }

  /**
   * The branch as intended: `bad` is the list of invalid senders, collected
   * once; its size is tested and each of its elements is broadcast as a
   * complaint over a fresh stream of the list.
   */
  function InvalidShareBranchCorrected(master: Actor, targets: seq<Actor>, bad: seq<Key>): Eval<Option<seq<Send>>> {
    if |bad| > 0 then
      var sends := ForEachComplaint(master, targets, Stream(bad, false));
      if sends.IllegalStateException? then IllegalStateException else Ok(Some(sends.value))
    else Ok(None)
  }

  /** As written, the branch throws whenever it is taken: no complaint is ever sent. */
  lemma AsWrittenThrowsWhenSomeShareIsInvalid(master: Actor, targets: seq<Actor>, bad: seq<Key>)
    ensures bad != [] <==> InvalidShareBranchAsWritten(master, targets, bad) == IllegalStateException
    ensures bad == [] ==> InvalidShareBranchAsWritten(master, targets, bad) == Ok(None)
  {
  }

  /** A concrete run: two participants, A its own master, and the share of point 2 invalid. */
  lemma AsWrittenSendsNoComplaint()
    ensures var a, b := Actor("A"), Actor("B");
            && InvalidShareBranchAsWritten(a, [a, b], [Some(2)]) == IllegalStateException
            && InvalidShareBranchCorrected(a, [a, b], [Some(2)]) == Ok(Some([Send(b, a, Complaint(Some(2)))]))
  {
    var a, b := Actor("A"), Actor("B");
    assert [a, b][..1] == [a];
    assert [a, b][..0] == [];
    assert [Some(2)][..0] == [];
    var o := Complaint(Some(2));
    assert Broadcast(a, [a], o) == [];
    assert Broadcast(a, [a, b], o) == [Send(b, a, o)];
    assert Complaints(a, [a, b], [Some(2)]) == [Send(b, a, o)];
  }

  /**
   * The intended branch is taken exactly when some sender is invalid, never
   * throws, and sends exactly the complaints of the transition function.
   */
  lemma CorrectedSendsTheComplaints(master: Actor, targets: seq<Actor>, bad: seq<Key>)
    ensures bad == [] <==> InvalidShareBranchCorrected(master, targets, bad) == Ok(None)
    ensures bad != [] ==> InvalidShareBranchCorrected(master, targets, bad) == Ok(Some(Complaints(master, targets, bad)))
  {
  }

  /**
   * On a share that completes the round with an invalid share, the
   * transition function sends exactly what the intended branch sends, while
   * the branch as written throws.
   */
  lemma InvalidShareStepFollowsCorrectedBranch(c: Config, data: RoundData, share: Share, sender: Actor, draws: Draws)
    requires SharesComplete(data, share, sender) && SomeShareInvalid(c, data, share, sender)
    ensures var reg := data.participants;
            var t := data.WithNewShare(share, Lookup(reg, sender)).shares;
            var bad := InvalidSenders(t, c.params, Lookup(reg, c.master), c.env.isCorrect);
            var r := Next(c, AwaitingPjQj, data, PublicShare(share), sender, draws);
            && bad != []
            && InvalidShareBranchCorrected(c.master, ActorsOf(reg), bad) == Ok(Some(r.outbox))
            && InvalidShareBranchAsWritten(c.master, ActorsOf(reg), bad) == IllegalStateException
  {
    var reg := data.participants;
    var own := Lookup(reg, c.master);
    var t := data.WithNewShare(share, Lookup(reg, sender)).shares;
    var bad := InvalidSenders(t, c.params, own, c.env.isCorrect);
    AbortStep(c, data, share, sender, draws);
    assert Next(c, AwaitingPjQj, data, PublicShare(share), sender, draws).outbox == Complaints(c.master, ActorsOf(reg), bad);
    CorrectedSendsTheComplaints(c.master, ActorsOf(reg), bad);
    AsWrittenThrowsWhenSomeShareIsInvalid(c.master, ActorsOf(reg), bad);
  }
}
