/**
 * One participant's round-based state machine for the BGW computation of
 * N = P·Q modulo the prime Pp (BGWProtocolActor), as a pure transition
 * function: a state, the round data and one received message give the next
 * state, the next round data and the messages sent, in order.
 *
 * The actor speaks for its `master`: the shares and partial products it
 * records for itself are keyed by the point registered for `master`, its
 * broadcasts skip `master` and carry `master` as their sender.
 */
module BGWProtocol {
  import opened BGWTypes
  import opened BGWData
  import opened Modular

  datatype StopReason = Normal | Failure(cause: string)

  /** The FSM states INITILIZATION, BGW_AWAITING_PjQj and BGW_AWAITING_Ni, and a stopped actor. */
  datatype Phase = Initialization | AwaitingPjQj | AwaitingNi | Stopped(reason: StopReason)

  /** What the actor fixes at construction. */
  datatype Config = Config(self: Actor, master: Actor, params: ProtocolParameters, env: Collaborators)

  /** The outcome of one event: next state and data, the sends in order, and whether a handler matched. */
  datatype Step = Step(phase: Phase, data: RoundData, outbox: seq<Send>, handled: bool)

  const InvalidShareFailure := Failure("A BGW share was invalid.")

  /** The actor a new protocol actor speaks for: the given master, or itself when none is given. */
  function MasterOf(self: Actor, master: Option<Actor>): Actor {
    if master.Some? then master.value else self
  }

  /** The point of the actor this participant speaks for. */
  function OwnKey(c: Config, reg: seq<(Actor, Point)>): Key {
    Lookup(reg, c.master)
  }

  // ---------------------------------------------------------------------
  // Outbound messages

  /** `broadCast(o, targets)`: `o` to every target except `master`, sent as `master`. */
  function Broadcast(master: Actor, targets: seq<Actor>, o: Msg): seq<Send> {
    if targets == [] then []
    else
      var last := targets[|targets| - 1];
      Broadcast(master, targets[..|targets| - 1], o) + (if last == master then [] else [Send(last, master, o)])
  }

  lemma {:induction false} BroadcastReachesEachOnce(master: Actor, targets: seq<Actor>, o: Msg)
    ensures forall s | s in Broadcast(master, targets, o) :: s == Send(s.to, master, o) && s.to in targets && s.to != master
    ensures Distinct(targets) ==>
      forall a :: multiset(Broadcast(master, targets, o))[Send(a, master, o)] == if a in targets && a != master then 1 else 0
  {
    if targets != [] {
      var init, last := targets[..|targets| - 1], targets[|targets| - 1];
      BroadcastReachesEachOnce(master, init, o);
      assert targets == init + [last];
      if Distinct(targets) {
        assert Distinct(init);
        assert last !in init by {
          forall i | 0 <= i < |init| ensures init[i] != last {
            assert init[i] == targets[i];
          }
        }
      }
    }
  }

  /** The share generated for one registered participant, sent as `master`. */
  function ShareFor(master: Actor, entry: (Actor, Point), priv: PrivateParameters, env: Collaborators, draw: Randomness): Send {
    Send(entry.0, master, PublicShare(env.genPublic(Some(entry.1), priv, draw)))
  }

  /**
   * The share sends of the INITILIZATION handler: to every registered
   * participant except `master`, a share generated at its point. The share
   * for the participant at registry position `i` uses the draw numbered
   * `i + 2` (draws 0 and 1 go to the private parameters and master's own share).
   */
  function ShareSends(master: Actor, reg: seq<(Actor, Point)>, priv: PrivateParameters, env: Collaborators, draws: Draws): seq<Send> {
    if reg == [] then []
    else
      var last := reg[|reg| - 1];
      ShareSends(master, reg[..|reg| - 1], priv, env, draws) + (if last.0 == master then [] else [ShareFor(master, last, priv, env, draws(|reg| + 1))])
  }

  /** Every share send goes to a registered participant other than `master`, generated at its point with its own draw. */
  lemma {:induction false} ShareSendsGoToParticipants(master: Actor, reg: seq<(Actor, Point)>, priv: PrivateParameters, env: Collaborators, draws: Draws)
    ensures forall s | s in ShareSends(master, reg, priv, env, draws) ::
      exists i | 0 <= i < |reg| :: reg[i].0 != master && s == ShareFor(master, reg[i], priv, env, draws(i + 2))
  {
    if reg != [] {
      var n := |reg| - 1;
      var init := reg[..n];
      ShareSendsGoToParticipants(master, init, priv, env, draws);
      var tail := if reg[n].0 == master then [] else [ShareFor(master, reg[n], priv, env, draws(n + 2))];
      assert ShareSends(master, reg, priv, env, draws) == ShareSends(master, init, priv, env, draws) + tail;
      forall s | s in ShareSends(master, reg, priv, env, draws)
        ensures exists i | 0 <= i < |reg| :: reg[i].0 != master && s == ShareFor(master, reg[i], priv, env, draws(i + 2))
      {
        if s in ShareSends(master, init, priv, env, draws) {
          var i :| 0 <= i < |init| && init[i].0 != master && s == ShareFor(master, init[i], priv, env, draws(i + 2));
          assert reg[i] == init[i];
        } else {
          assert s in tail;
        }
      }
    }
  }

  /** With distinct actors, each participant other than `master` gets its share exactly once. */
  lemma {:induction false} ShareSendsOnePerParticipant(master: Actor, reg: seq<(Actor, Point)>, priv: PrivateParameters, env: Collaborators, draws: Draws)
    ensures DistinctActors(reg) ==>
      forall i | 0 <= i < |reg| && reg[i].0 != master ::
        multiset(ShareSends(master, reg, priv, env, draws))[ShareFor(master, reg[i], priv, env, draws(i + 2))] == 1
  {
    if reg != [] && DistinctActors(reg) {
      var n := |reg| - 1;
      var init, last := reg[..n], reg[n];
      assert DistinctActors(init);
      var tail := if last.0 == master then [] else [ShareFor(master, last, priv, env, draws(n + 2))];
      var head := ShareSends(master, init, priv, env, draws);
      var out := ShareSends(master, reg, priv, env, draws);
      assert out == head + tail;
      assert multiset(out) == multiset(head) + multiset(tail);
      forall i | 0 <= i < |reg| && reg[i].0 != master
        ensures multiset(out)[ShareFor(master, reg[i], priv, env, draws(i + 2))] == 1
      {
        var x := ShareFor(master, reg[i], priv, env, draws(i + 2));
        if i < n {
          assert multiset(head)[x] == 1 by {
            ShareSendsOnePerParticipant(master, init, priv, env, draws);
            assert reg[i] == init[i];
          }
          assert x !in tail by {
            assert reg[i].0 != last.0;
          }
        } else {
          assert x !in head by {
            ShareSendsGoToParticipants(master, init, priv, env, draws);
            forall s | s in head ensures s.to != last.0 {
              var j :| 0 <= j < |init| && init[j].0 != master && s == ShareFor(master, init[j], priv, env, draws(j + 2));
              assert init[j] == reg[j];
            }
          }
          assert tail == [x];
        }
      }
    }
  }

  /** The senders, in enumeration order, whose recorded share fails the validity check. */
  function InvalidSenders(t: seq<(Key, Share)>, params: ProtocolParameters, own: Key,
                          isCorrect: (Share, ProtocolParameters, Key, Key) -> bool): (bad: seq<Key>)
    ensures |bad| <= |t|
  {
    if t == [] then []
    else
      var n := |t| - 1;
      InvalidSenders(t[..n], params, own, isCorrect) + (if isCorrect(t[n].1, params, own, t[n].0) then [] else [t[n].0])
  }

  /** A key is reported exactly when it was recorded with a share that fails the check. */
  lemma {:induction false} InvalidSendersAreTheInvalid(t: seq<(Key, Share)>, params: ProtocolParameters, own: Key,
                                                       isCorrect: (Share, ProtocolParameters, Key, Key) -> bool)
    ensures forall k :: k in InvalidSenders(t, params, own, isCorrect) <==>
      exists i | 0 <= i < |t| :: t[i].0 == k && !isCorrect(t[i].1, params, own, k)
  {
    if t != [] {
      var n := |t| - 1;
      InvalidSendersAreTheInvalid(t[..n], params, own, isCorrect);
      forall k ensures k in InvalidSenders(t, params, own, isCorrect) <==>
        exists i | 0 <= i < |t| :: t[i].0 == k && !isCorrect(t[i].1, params, own, k)
      {
        if exists i | 0 <= i < |t| :: t[i].0 == k && !isCorrect(t[i].1, params, own, k) {
          var i :| 0 <= i < |t| && t[i].0 == k && !isCorrect(t[i].1, params, own, k);
          if i < n { assert t[..n][i] == t[i]; }
        }
        if k in InvalidSenders(t[..n], params, own, isCorrect) {
          var i :| 0 <= i < |t[..n]| && t[..n][i].0 == k && !isCorrect(t[..n][i].1, params, own, k);
          assert t[..n][i] == t[i];
        }
      }
    }
  }

  /** Nothing is reported exactly when every recorded share passes the check. */
  lemma NoInvalidSendersIffAllCorrect(t: seq<(Key, Share)>, params: ProtocolParameters, own: Key,
                                      isCorrect: (Share, ProtocolParameters, Key, Key) -> bool)
    ensures InvalidSenders(t, params, own, isCorrect) == [] <==>
      forall i | 0 <= i < |t| :: isCorrect(t[i].1, params, own, t[i].0)
  {
    var bad := InvalidSenders(t, params, own, isCorrect);
    InvalidSendersAreTheInvalid(t, params, own, isCorrect);
    if bad != [] {
      assert bad[0] in bad;
    }
    if exists i | 0 <= i < |t| :: !isCorrect(t[i].1, params, own, t[i].0) {
      var i :| 0 <= i < |t| && !isCorrect(t[i].1, params, own, t[i].0);
      assert t[i].0 in bad;
    }
  }

  predicate KeysAscending(ks: seq<Key>) {
    forall i, j | 0 <= i < j < |ks| :: KeyLt(ks[i], ks[j])
  }

  /** Reported in ascending key order, hence each at most once, when the table is ascending. */
  lemma {:induction false} InvalidSendersAscending(t: seq<(Key, Share)>, params: ProtocolParameters, own: Key,
                                                   isCorrect: (Share, ProtocolParameters, Key, Key) -> bool)
    requires Ascending(t)
    ensures KeysAscending(InvalidSenders(t, params, own, isCorrect))
    ensures Distinct(InvalidSenders(t, params, own, isCorrect))
  {
    var bad := InvalidSenders(t, params, own, isCorrect);
    if t != [] {
      var n := |t| - 1;
      var init := InvalidSenders(t[..n], params, own, isCorrect);
      assert Ascending(t[..n]) by {
        forall i, j | 0 <= i < j < n ensures KeyLt(t[..n][i].0, t[..n][j].0) {
          assert t[..n][i] == t[i] && t[..n][j] == t[j];
        }
      }
      InvalidSendersAscending(t[..n], params, own, isCorrect);
      InvalidSendersAreTheInvalid(t[..n], params, own, isCorrect);
      forall i | 0 <= i < |init| ensures KeyLt(init[i], t[n].0) {
        assert init[i] in init;
        var m :| 0 <= m < |t[..n]| && t[..n][m].0 == init[i] && !isCorrect(t[..n][m].1, params, own, init[i]);
        assert t[..n][m] == t[m];
        assert KeyLt(t[m].0, t[n].0);
      }
      if !isCorrect(t[n].1, params, own, t[n].0) {
        assert bad == init + [t[n].0];
        forall i, j | 0 <= i < j < |bad| ensures KeyLt(bad[i], bad[j]) {
          if j < |init| {
            assert bad[i] == init[i] && bad[j] == init[j];
            assert KeyLt(init[i], init[j]);
          } else {
            assert bad[i] == init[i] && bad[j] == t[n].0;
            assert KeyLt(init[i], t[n].0);
          }
        }
      } else {
        assert bad == init;
      }
    }
    forall i, j | 0 <= i < j < |bad| ensures bad[i] != bad[j] {
      assert KeyLt(bad[i], bad[j]);
    }
  }

  /** The complaint sends of the BGW_AWAITING_PjQj handler: one complaint per invalid sender, each broadcast as `master`. */
  function Complaints(master: Actor, targets: seq<Actor>, bad: seq<Key>): seq<Send> {
    if bad == [] then []
    else Complaints(master, targets, bad[..|bad| - 1]) + Broadcast(master, targets, Complaint(bad[|bad| - 1]))
  }

  lemma {:induction false} ComplaintsReachEachOnce(master: Actor, targets: seq<Actor>, bad: seq<Key>)
    ensures forall s | s in Complaints(master, targets, bad) ::
      s.payload.Complaint? && s.payload.id in bad && s == Send(s.to, master, s.payload) && s.to in targets && s.to != master
    ensures Distinct(targets) && Distinct(bad) ==>
      forall a, id | a in targets && a != master && id in bad ::
        multiset(Complaints(master, targets, bad))[Send(a, master, Complaint(id))] == 1
  {
    if bad != [] {
      var n := |bad| - 1;
      var init, last := bad[..n], bad[n];
      ComplaintsReachEachOnce(master, targets, init);
      BroadcastReachesEachOnce(master, targets, Complaint(last));
      assert bad == init + [last];
      var out := Complaints(master, targets, bad);
      if Distinct(targets) && Distinct(bad) {
        assert Distinct(init);
        assert last !in init by {
          forall i | 0 <= i < n ensures init[i] != last {
            assert init[i] == bad[i];
          }
        }
        forall a, id | a in targets && a != master && id in bad
          ensures multiset(out)[Send(a, master, Complaint(id))] == 1
        {
          if id == last {
            assert Send(a, master, Complaint(id)) !in Complaints(master, targets, init);
          } else {
            assert id in init;
            assert Send(a, master, Complaint(id)) !in Broadcast(master, targets, Complaint(last));
          }
        }
      }
    }
  }

  // ---------------------------------------------------------------------
  // The partial product

  function Pjs(t: seq<(Key, Share)>): seq<int> {
    seq(|t|, i requires 0 <= i < |t| => t[i].1.pj)
  }

  function Qjs(t: seq<(Key, Share)>): seq<int> {
    seq(|t|, i requires 0 <= i < |t| => t[i].1.qj)
  }

  function Hjs(t: seq<(Key, Share)>): seq<int> {
    seq(|t|, i requires 0 <= i < |t| => t[i].1.hj)
  }

  /** `Ni = (ΣPj·ΣQj + ΣHj) mod Pp` over the recorded shares, as BGW_AWAITING_PjQj computes it. */
  function PartialProductOf(t: seq<(Key, Share)>, pp: Modulus): (ni: int)
    ensures 0 <= ni < pp
  {
    (Sum(Pjs(t)) * Sum(Qjs(t)) + Sum(Hjs(t))) % pp
  }

  /**
   * Reducing the three sums modulo Pp, after every addition or once at the
   * end, before multiplying gives the same Ni as the single final reduction.
   */
  lemma ReducedSumsGiveSamePartialProduct(t: seq<(Key, Share)>, pp: Modulus)
    ensures PartialProductOf(t, pp) == (SumMod(Pjs(t), pp) * SumMod(Qjs(t), pp) + SumMod(Hjs(t), pp)) % pp
    ensures PartialProductOf(t, pp) == ((Sum(Pjs(t)) % pp) * (Sum(Qjs(t)) % pp) + Sum(Hjs(t)) % pp) % pp
  {
    var p, q, h := Sum(Pjs(t)), Sum(Qjs(t)), Sum(Hjs(t));
    SumModIsResidueOfSum(Pjs(t), pp);
    SumModIsResidueOfSum(Qjs(t), pp);
    SumModIsResidueOfSum(Hjs(t), pp);
    ModUnique(p % pp, pp, 0, p % pp);
    ModUnique(q % pp, pp, 0, q % pp);
    ModUnique(h % pp, pp, 0, h % pp);
    ResiduesDetermineProductSum(p, q, h, p % pp, q % pp, h % pp, pp);
  }

  /**
   * Correct-path arithmetic: when the recorded shares add up to P, Q and H
   * modulo Pp, the partial product is `(P·Q + H) mod Pp`.
   */
  lemma PartialProductOfResidues(t: seq<(Key, Share)>, pp: Modulus, P: int, Q: int, H: int)
    requires Sum(Pjs(t)) % pp == P % pp && Sum(Qjs(t)) % pp == Q % pp && Sum(Hjs(t)) % pp == H % pp
    ensures PartialProductOf(t, pp) == (P * Q + H) % pp
  {
    ResiduesDetermineProductSum(Sum(Pjs(t)), Sum(Qjs(t)), Sum(Hjs(t)), P, Q, H, pp);
  }

  // ---------------------------------------------------------------------
  // The handlers

  /** The INITILIZATION handler, on `Participants`. */
  function OnParticipants(c: Config, data: RoundData, actors: Registry, draws: Draws): Step {
    var own := OwnKey(c, actors);
    var priv := c.env.genPrivate(own, c.params, draws(0));
    var selfShare := c.env.genPublic(own, priv, draws(1));
    var next := data.WithPrivateParameters(priv).WithNewShare(selfShare, own).WithParticipants(actors);
    Step(AwaitingPjQj, next, ShareSends(c.master, actors, priv, c.env, draws), true)
  }

  /** The BGW_AWAITING_PjQj handler, on a share from `sender`. */
  function OnShare(c: Config, data: RoundData, share: Share, sender: Actor): Step {
    var actors := data.participants;
    var withShare := data.WithNewShare(share, Lookup(actors, sender));
    if !withShare.HasShareOf(actors) then
      Step(AwaitingPjQj, withShare, [], true)
    else
      var own := OwnKey(c, actors);
      var bad := InvalidSenders(withShare.shares, c.params, own, c.env.isCorrect);
      if |bad| > 0 then
        Step(Stopped(InvalidShareFailure), data, Complaints(c.master, ActorsOf(actors), bad), true)
      else
        var ni := PartialProductOf(withShare.shares, c.params.pp);
        Step(AwaitingNi, withShare.WithNewNi(ni, own), Broadcast(c.master, ActorsOf(actors), PartialProduct(ni)), true)
  }

  /** The BGW_AWAITING_Ni handler, on a partial product from `sender`. */
  function OnNi(c: Config, data: RoundData, ni: int, sender: Actor): Step {
    var actors := data.participants;
    var withNi := data.WithNewNi(ni, Lookup(actors, sender));
    if !withNi.HasNiOf(actors) then
      Step(AwaitingNi, withNi, [], true)
    else
      var n := c.env.getIntercept(Values(withNi.nis), c.params.pp);
      if c.master == c.self then
        Step(Stopped(Normal), data, [], true)
      else
        Step(Initialization, Init(), [Send(c.master, c.self, BGWResult(n))], true)
  }

  /** The message kind each state has a handler for. */
  predicate Expects(phase: Phase, msg: Msg) {
    || (phase.Initialization? && msg.Participants?)
    || (phase.AwaitingPjQj? && msg.PublicShare?)
    || (phase.AwaitingNi? && msg.PartialProduct?)
  }

  /** The transition of the actor on receiving `msg` from `sender`. */
  function Next(c: Config, phase: Phase, data: RoundData, msg: Msg, sender: Actor, draws: Draws): Step {
    if !Expects(phase, msg) then Step(phase, data, [], false)
    else if phase.Initialization? then OnParticipants(c, data, msg.actors, draws)
    else if phase.AwaitingPjQj? then OnShare(c, data, msg.share, sender)
    else OnNi(c, data, msg.ni, sender)
  }
}
