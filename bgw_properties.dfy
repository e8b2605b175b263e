/**
 * What one transition of the protocol actor promises: who receives what,
 * when a round advances, aborts or resets, and the invariant of the round
 * data in each state.
 */
module BGWProperties {
  import opened BGWTypes
  import opened BGWData
  import opened Modular
  import opened BGWProtocol

  // ---------------------------------------------------------------------
  // INITILIZATION

  /**
   * On `Participants`, exactly one share goes to each registered participant
   * other than `master`, generated at that recipient's point with a draw of
   * its own and sent as `master`; nothing goes to `master` or to an
   * unregistered actor.
   */
  lemma ParticipantsSendOneShareEach(c: Config, data: RoundData, actors: Registry, sender: Actor, draws: Draws)
    ensures var r := Next(c, Initialization, data, Participants(actors), sender, draws);
            var priv := c.env.genPrivate(Lookup(actors, c.master), c.params, draws(0));
            forall s | s in r.outbox ::
              && s.to != c.master && s.from == c.master && Lookup(actors, s.to).Some?
              && exists i | 0 <= i < |actors| :: actors[i].0 == s.to
                   && s.payload == PublicShare(c.env.genPublic(Lookup(actors, s.to), priv, draws(i + 2)))
    ensures var r := Next(c, Initialization, data, Participants(actors), sender, draws);
            var priv := c.env.genPrivate(Lookup(actors, c.master), c.params, draws(0));
            forall i | 0 <= i < |actors| && actors[i].0 != c.master ::
              multiset(r.outbox)[Send(actors[i].0, c.master, PublicShare(c.env.genPublic(Some(actors[i].1), priv, draws(i + 2))))] == 1
  {
    var own := Lookup(actors, c.master);
    var priv := c.env.genPrivate(own, c.params, draws(0));
    var out := Next(c, Initialization, data, Participants(actors), sender, draws).outbox;
    assert out == ShareSends(c.master, actors, priv, c.env, draws);
    ShareSendsGoToParticipants(c.master, actors, priv, c.env, draws);
    ShareSendsOnePerParticipant(c.master, actors, priv, c.env, draws);
    forall s | s in out
      ensures Lookup(actors, s.to).Some?
      ensures exists i | 0 <= i < |actors| :: actors[i].0 == s.to
                && s.payload == PublicShare(c.env.genPublic(Lookup(actors, s.to), priv, draws(i + 2)))
    {
      var i :| 0 <= i < |actors| && actors[i].0 != c.master && s == ShareFor(c.master, actors[i], priv, c.env, draws(i + 2));
      LookupRegistered(actors, i);
    }
  }

  /**
   * After `Participants` the actor awaits shares; its data holds the
   * registry, the private parameters generated at master's point, and the
   * share master generated for itself, under master's point. Started from
   * `BGWData.init()`, that is the only share recorded and no partial product is.
   */
  lemma ParticipantsStartShareRound(c: Config, data: RoundData, actors: Registry, sender: Actor, draws: Draws)
    ensures var r := Next(c, Initialization, data, Participants(actors), sender, draws);
            var own := Lookup(actors, c.master);
            var priv := c.env.genPrivate(own, c.params, draws(0));
            && r.handled && r.phase == AwaitingPjQj
            && r.data.participants == actors
            && r.data.privateParameters == Some(priv)
            && Get(r.data.shares, own) == Some(c.env.genPublic(own, priv, draws(1)))
            && (forall k | k != own :: Get(r.data.shares, k) == Get(data.shares, k))
            && r.data.nis == data.nis
            && (data == Init() ==> Keys(r.data.shares) == {own} && Keys(r.data.nis) == {})
  {
  }

  // ---------------------------------------------------------------------
  // BGW_AWAITING_PjQj

  /**
   * A share is recorded, or overwrites the one recorded before, under the
   * sender's point. The round advances exactly when, with it, every
   * registered point has a share; until then the actor stays and sends nothing.
   */
  lemma ShareRecordedUntilComplete(c: Config, data: RoundData, share: Share, sender: Actor, draws: Draws)
    ensures var r := Next(c, AwaitingPjQj, data, PublicShare(share), sender, draws);
            var reg := data.participants;
            var key := Lookup(reg, sender);
            var complete := forall i | 0 <= i < |reg| :: Some(reg[i].1) in Keys(data.shares) + {key};
            && r.handled
            && (r.phase == AwaitingPjQj <==> !complete)
            && (!complete ==>
                  && r.outbox == []
                  && Get(r.data.shares, key) == Some(share)
                  && (forall k | k != key :: Get(r.data.shares, k) == Get(data.shares, k))
                  && r.data.participants == reg && r.data.privateParameters == data.privateParameters
                  && r.data.nis == data.nis)
  {
  }

  /** Every registered point has a share once `share` from `sender` is recorded. */
  predicate SharesComplete(data: RoundData, share: Share, sender: Actor) {
    var reg := data.participants;
    forall i | 0 <= i < |reg| :: Some(reg[i].1) in Keys(data.WithNewShare(share, Lookup(reg, sender)).shares)
  }

  /** Some recorded share, `share` from `sender` included, fails the validity check. */
  predicate SomeShareInvalid(c: Config, data: RoundData, share: Share, sender: Actor) {
    var reg := data.participants;
    var t := data.WithNewShare(share, Lookup(reg, sender)).shares;
    exists j | 0 <= j < |t| :: !c.env.isCorrect(t[j].1, c.params, Lookup(reg, c.master), t[j].0)
  }

  /** A share in BGW_AWAITING_PjQj goes to the share handler. */
  lemma NextOnShare(c: Config, data: RoundData, share: Share, sender: Actor, draws: Draws)
    ensures Next(c, AwaitingPjQj, data, PublicShare(share), sender, draws) == OnShare(c, data, share, sender)
  {
  }

  lemma CompleteSharesCover(data: RoundData, share: Share, sender: Actor)
    requires SharesComplete(data, share, sender)
    ensures data.WithNewShare(share, Lookup(data.participants, sender)).HasShareOf(data.participants)
  {
  }

  /** The abort step, with the list of invalid senders materialised. */
  lemma AbortStep(c: Config, data: RoundData, share: Share, sender: Actor, draws: Draws)
    requires SharesComplete(data, share, sender) && SomeShareInvalid(c, data, share, sender)
    ensures var reg := data.participants;
            var t := data.WithNewShare(share, Lookup(reg, sender)).shares;
            var bad := InvalidSenders(t, c.params, Lookup(reg, c.master), c.env.isCorrect);
            && bad != []
            && Next(c, AwaitingPjQj, data, PublicShare(share), sender, draws)
               == Step(Stopped(InvalidShareFailure), data, Complaints(c.master, ActorsOf(reg), bad), true)
  {
    var reg := data.participants;
    var own := Lookup(reg, c.master);
    var t := data.WithNewShare(share, Lookup(reg, sender)).shares;
    var bad := InvalidSenders(t, c.params, own, c.env.isCorrect);
    assert |bad| > 0 by {
      InvalidSendersAreTheInvalid(t, c.params, own, c.env.isCorrect);
      var j :| 0 <= j < |t| && !c.env.isCorrect(t[j].1, c.params, own, t[j].0);
      assert t[j].0 in bad;
    }
    assert data.WithNewShare(share, Lookup(reg, sender)).HasShareOf(reg) by {
      CompleteSharesCover(data, share, sender);
    }
    NextOnShare(c, data, share, sender, draws);
  }

  /**
   * Once every registered point has a share and one of them fails the
   * validity check, the actor stops with the invalid-share failure, its
   * data unchanged, and sends complaints only: no partial product.
   */
  lemma InvalidShareAborts(c: Config, data: RoundData, share: Share, sender: Actor, draws: Draws)
    requires SharesComplete(data, share, sender) && SomeShareInvalid(c, data, share, sender)
    ensures var r := Next(c, AwaitingPjQj, data, PublicShare(share), sender, draws);
            && r.handled && r.phase == Stopped(Failure("A BGW share was invalid.")) && r.data == data
            && forall s | s in r.outbox :: s.payload.Complaint?
  {
    AbortStep(c, data, share, sender, draws);
    var reg := data.participants;
    var t := data.WithNewShare(share, Lookup(reg, sender)).shares;
    ComplaintsReachEachOnce(c.master, ActorsOf(reg), InvalidSenders(t, c.params, Lookup(reg, c.master), c.env.isCorrect));
  }

  /**
   * Each complaint of the abort step goes, as `master`, to a registered
   * participant other than `master`, and names a sender whose recorded
   * share fails the validity check.
   */
  lemma ComplaintsNameInvalidSenders(c: Config, data: RoundData, share: Share, sender: Actor, draws: Draws)
    requires SharesComplete(data, share, sender) && SomeShareInvalid(c, data, share, sender)
    ensures var r := Next(c, AwaitingPjQj, data, PublicShare(share), sender, draws);
            var reg := data.participants;
            var t := data.WithNewShare(share, Lookup(reg, sender)).shares;
            forall s | s in r.outbox ::
              && s.payload.Complaint? && s.from == c.master && s.to != c.master && s.to in ActorsOf(reg)
              && exists j | 0 <= j < |t| :: t[j].0 == s.payload.id && !c.env.isCorrect(t[j].1, c.params, Lookup(reg, c.master), s.payload.id)
  {
    AbortStep(c, data, share, sender, draws);
    var reg := data.participants;
    var t := data.WithNewShare(share, Lookup(reg, sender)).shares;
    InvalidSendersAreTheInvalid(t, c.params, Lookup(reg, c.master), c.env.isCorrect);
    ComplaintsReachEachOnce(c.master, ActorsOf(reg), InvalidSenders(t, c.params, Lookup(reg, c.master), c.env.isCorrect));
  }

  /**
   * In the abort step every registered participant other than `master`
   * receives exactly one `Complaint(id)` for each sender `id` whose recorded
   * share fails the validity check.
   */
  lemma ComplaintsReachEveryParticipant(c: Config, data: RoundData, share: Share, sender: Actor, draws: Draws)
    requires SharesComplete(data, share, sender) && SomeShareInvalid(c, data, share, sender)
    ensures var r := Next(c, AwaitingPjQj, data, PublicShare(share), sender, draws);
            var reg := data.participants;
            var t := data.WithNewShare(share, Lookup(reg, sender)).shares;
            forall i, j | 0 <= i < |reg| && reg[i].0 != c.master && 0 <= j < |t|
                          && !c.env.isCorrect(t[j].1, c.params, Lookup(reg, c.master), t[j].0) ::
              multiset(r.outbox)[Send(reg[i].0, c.master, Complaint(t[j].0))] == 1
  {
    AbortStep(c, data, share, sender, draws);
    var reg := data.participants;
    var t := data.WithNewShare(share, Lookup(reg, sender)).shares;
    var targets := ActorsOf(reg);
    InvalidSendersAreTheInvalid(t, c.params, Lookup(reg, c.master), c.env.isCorrect);
    InvalidSendersAscending(t, c.params, Lookup(reg, c.master), c.env.isCorrect);
    ComplaintsReachEachOnce(c.master, targets, InvalidSenders(t, c.params, Lookup(reg, c.master), c.env.isCorrect));
    forall i | 0 <= i < |reg| ensures reg[i].0 in targets {
      assert targets[i] == reg[i].0;
    }
  }

  /** Every recorded share, `share` from `sender` included, passes the validity check. */
  predicate AllSharesValid(c: Config, data: RoundData, share: Share, sender: Actor) {
    var reg := data.participants;
    var t := data.WithNewShare(share, Lookup(reg, sender)).shares;
    forall j | 0 <= j < |t| :: c.env.isCorrect(t[j].1, c.params, Lookup(reg, c.master), t[j].0)
  }

  /** The step that computes and broadcasts Ni. */
  lemma AdvanceStep(c: Config, data: RoundData, share: Share, sender: Actor, draws: Draws)
    requires SharesComplete(data, share, sender) && AllSharesValid(c, data, share, sender)
    ensures var reg := data.participants;
            var own := Lookup(reg, c.master);
            var d := data.WithNewShare(share, Lookup(reg, sender));
            var t := d.shares;
            var ni := PartialProductOf(t, c.params.pp);
            Next(c, AwaitingPjQj, data, PublicShare(share), sender, draws)
              == Step(AwaitingNi, d.WithNewNi(ni, own), Broadcast(c.master, ActorsOf(reg), PartialProduct(ni)), true)
  {
    var reg := data.participants;
    var own := Lookup(reg, c.master);
    var t := data.WithNewShare(share, Lookup(reg, sender)).shares;
    NextOnShare(c, data, share, sender, draws);
    CompleteSharesCover(data, share, sender);
    NoInvalidSendersIffAllCorrect(t, c.params, own, c.env.isCorrect);
  }

  /**
   * Once every registered point has a share and all of them pass the
   * validity check, `Ni = (ΣPj·ΣQj + ΣHj) mod Pp`, with `0 <= Ni < Pp`, is
   * recorded under master's point, the shares are kept, and the actor
   * awaits partial products.
   */
  lemma ValidSharesAdvance(c: Config, data: RoundData, share: Share, sender: Actor, draws: Draws)
    requires SharesComplete(data, share, sender) && AllSharesValid(c, data, share, sender)
    ensures var r := Next(c, AwaitingPjQj, data, PublicShare(share), sender, draws);
            var reg := data.participants;
            var own := Lookup(reg, c.master);
            var t := data.WithNewShare(share, Lookup(reg, sender)).shares;
            var ni := PartialProductOf(t, c.params.pp);
            && 0 <= ni < c.params.pp
            && r.handled && r.phase == AwaitingNi
            && r.data.shares == t && r.data.participants == reg
            && Get(r.data.nis, own) == Some(ni)
            && (forall k | k != own :: Get(r.data.nis, k) == Get(data.nis, k))
  {
    AdvanceStep(c, data, share, sender, draws);
  }

  /**
   * That Ni is sent, as `master`, to every registered participant except
   * `master`, exactly once each, and to nobody else.
   */
  lemma NiBroadcastToEveryParticipant(c: Config, data: RoundData, share: Share, sender: Actor, draws: Draws)
    requires SharesComplete(data, share, sender) && AllSharesValid(c, data, share, sender)
    ensures var r := Next(c, AwaitingPjQj, data, PublicShare(share), sender, draws);
            var reg := data.participants;
            var t := data.WithNewShare(share, Lookup(reg, sender)).shares;
            var ni := PartialProductOf(t, c.params.pp);
            && (forall s | s in r.outbox :: s == Send(s.to, c.master, PartialProduct(ni)) && s.to in ActorsOf(reg) && s.to != c.master)
            && (forall i | 0 <= i < |reg| && reg[i].0 != c.master ::
                  multiset(r.outbox)[Send(reg[i].0, c.master, PartialProduct(ni))] == 1)
  {
    AdvanceStep(c, data, share, sender, draws);
    var reg := data.participants;
    var t := data.WithNewShare(share, Lookup(reg, sender)).shares;
    var targets := ActorsOf(reg);
    var ni := PartialProductOf(t, c.params.pp);
    BroadcastReachesEachOnce(c.master, targets, PartialProduct(ni));
    forall i | 0 <= i < |reg| ensures reg[i].0 in targets {
      assert targets[i] == reg[i].0;
    }
  }

  // ---------------------------------------------------------------------
  // BGW_AWAITING_Ni

  /**
   * A partial product is recorded, or overwrites the one recorded before,
   * under the sender's point. The round completes exactly when, with it,
   * every registered point has one; until then the actor stays and sends nothing.
   */
  lemma NiRecordedUntilComplete(c: Config, data: RoundData, ni: int, sender: Actor, draws: Draws)
    ensures var r := Next(c, AwaitingNi, data, PartialProduct(ni), sender, draws);
            var reg := data.participants;
            var key := Lookup(reg, sender);
            var complete := forall i | 0 <= i < |reg| :: Some(reg[i].1) in Keys(data.nis) + {key};
            && r.handled
            && (r.phase == AwaitingNi <==> !complete)
            && (!complete ==>
                  && r.outbox == []
                  && Get(r.data.nis, key) == Some(ni)
                  && (forall k | k != key :: Get(r.data.nis, k) == Get(data.nis, k))
                  && r.data.participants == reg && r.data.privateParameters == data.privateParameters
                  && r.data.shares == data.shares)
  {
  }

  /**
   * Once every registered point has a partial product, N is interpolated
   * from the recorded values in point order. An actor that is its own
   * master stops and sends nothing; any other sends exactly one
   * `BGWResult(N)`, to `master` only, and starts over from `BGWData.init()`:
   * no registry, no private parameters, no shares, no partial products.
   */
  lemma CompleteNisDeliverResult(c: Config, data: RoundData, ni: int, sender: Actor, draws: Draws)
    requires var reg := data.participants;
             forall i | 0 <= i < |reg| :: Some(reg[i].1) in Keys(data.nis) + {Lookup(reg, sender)}
    ensures var r := Next(c, AwaitingNi, data, PartialProduct(ni), sender, draws);
            var nis := Put(data.nis, Lookup(data.participants, sender), ni);
            var n := c.env.getIntercept(Values(nis), c.params.pp);
            && r.handled
            && (c.master == c.self ==> r.phase == Stopped(Normal) && r.outbox == [] && r.data == data)
            && (c.master != c.self ==>
                  && r.phase == Initialization
                  && r.outbox == [Send(c.master, c.self, BGWResult(n))]
                  && r.data.privateParameters.None? && r.data.participants == []
                  && Keys(r.data.shares) == {} && Keys(r.data.nis) == {})
  {
  }

  // ---------------------------------------------------------------------
  // Messages no state expects

  /**
   * A handler runs exactly when the state expects the message's kind;
   * otherwise nothing changes and nothing is sent.
   */
  lemma UnexpectedMessageChangesNothing(c: Config, phase: Phase, data: RoundData, msg: Msg, sender: Actor, draws: Draws)
    ensures Next(c, phase, data, msg, sender, draws).handled <==> Expects(phase, msg)
    ensures !Expects(phase, msg) ==> Next(c, phase, data, msg, sender, draws) == Step(phase, data, [], false)
  {
  }

  /** A stopped actor reacts to nothing. */
  lemma StoppedIsFinal(c: Config, reason: StopReason, data: RoundData, msg: Msg, sender: Actor, draws: Draws)
    ensures Next(c, Stopped(reason), data, msg, sender, draws) == Step(Stopped(reason), data, [], false)
  {
  }

  // ---------------------------------------------------------------------
  // The round-data invariant

  /**
   * What holds of the round data in each state of a run that began with
   * `BGWData.init()`: in INITILIZATION the data is empty; while shares are
   * awaited, master's own share is recorded and no partial product is; while
   * partial products are awaited, every registered point has a share, all
   * shares are valid, and master's own partial product is recorded.
   */
  ghost predicate Inv(c: Config, phase: Phase, d: RoundData) {
    var own := Lookup(d.participants, c.master);
    match phase
    case Initialization => d == Init()
    case AwaitingPjQj => d.privateParameters.Some? && own in Keys(d.shares) && Keys(d.nis) == {}
    case AwaitingNi =>
      && d.privateParameters.Some?
      && Covers(d.shares, d.participants)
      && (forall j | 0 <= j < |d.shares| :: c.env.isCorrect(d.shares[j].1, c.params, own, d.shares[j].0))
      && own in Keys(d.nis)
    case Stopped(_) => true
  }

  lemma {:induction false} InitialStateSatisfiesInv(c: Config)
    ensures Inv(c, Initialization, Init())
  {
  }

  lemma ParticipantsKeepInv(c: Config, data: RoundData, actors: Registry, draws: Draws)
    requires Inv(c, Initialization, data)
    ensures var r := OnParticipants(c, data, actors, draws); Inv(c, r.phase, r.data)
  {
  }

  lemma ShareKeepsInv(c: Config, data: RoundData, share: Share, sender: Actor)
    requires Inv(c, AwaitingPjQj, data)
    ensures var r := OnShare(c, data, share, sender); Inv(c, r.phase, r.data)
  {
    var reg := data.participants;
    var own := Lookup(reg, c.master);
    var d := data.WithNewShare(share, Lookup(reg, sender));
    if d.HasShareOf(reg) {
      NoInvalidSendersIffAllCorrect(d.shares, c.params, own, c.env.isCorrect);
    }
  }

  lemma NiKeepsInv(c: Config, data: RoundData, ni: int, sender: Actor)
    requires Inv(c, AwaitingNi, data)
    ensures var r := OnNi(c, data, ni, sender); Inv(c, r.phase, r.data)
  {
  }

  /** Every transition keeps the invariant. */
  lemma {:induction false} NextPreservesInv(c: Config, phase: Phase, data: RoundData, msg: Msg, sender: Actor, draws: Draws)
    requires Inv(c, phase, data)
    ensures var r := Next(c, phase, data, msg, sender, draws); Inv(c, r.phase, r.data)
  {
    if Expects(phase, msg) {
      match phase
      case Initialization => ParticipantsKeepInv(c, data, msg.actors, draws);
      case AwaitingPjQj => ShareKeepsInv(c, data, msg.share, sender);
      case AwaitingNi => NiKeepsInv(c, data, msg.ni, sender);
    }
  }
}
