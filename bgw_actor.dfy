/**
 * The protocol actor as an object (BGWProtocolActor): the configuration
 * fixed at construction, and the FSM state and round data that each
 * received message updates in place. One call of `Receive` is one event;
 * the messages it sends are returned in the order they are told.
 */
module BGWActor {
  import opened BGWTypes
  import opened BGWData
  import opened BGWProtocol
  import opened BGWProperties

  class BGWProtocolActor {
    const self: Actor
    const master: Actor
    const protocolParameters: ProtocolParameters
    const env: Collaborators
    var state: Phase
    var data: RoundData

    /** What the actor fixed at construction. */
    function Cfg(): Config {
      Config(self, master, protocolParameters, env)
    }

    /** The round-data invariant of the current state. */
    ghost predicate Valid()
      reads this
    {
      Inv(Cfg(), state, data)
    }

    /**
     * `new BGWProtocolActor(protocolParam, master)`: the actor speaks for
     * `master`, or for itself when no master is given, and starts in
     * INITILIZATION with `BGWData.init()`.
     */
    constructor (protocolParam: ProtocolParameters, collaborators: Collaborators, selfRef: Actor, masterRef: Option<Actor>)
      ensures self == selfRef && protocolParameters == protocolParam && env == collaborators
      ensures masterRef.Some? ==> master == masterRef.value
      ensures masterRef.None? ==> master == selfRef
      ensures state == Initialization && data == Init()
      ensures Valid()
    {
      self := selfRef;
      master := MasterOf(selfRef, masterRef);
      protocolParameters := protocolParam;
      env := collaborators;
      state := Initialization;
      data := Init();
    }

    /** `broadCast(o, targets)`: tells `o`, as `master`, to every target but `master`, in target order. */
    method BroadCast(o: Msg, targets: seq<Actor>) returns (out: seq<Send>)
      ensures out == Broadcast(master, targets, o)
    {
      out := [];
      var i := 0;
      while i < |targets|
        invariant 0 <= i <= |targets|
        invariant out == Broadcast(master, targets[..i], o)
      {
        assert targets[..i + 1][..i] == targets[..i];
        if targets[i] != master {
          out := out + [Send(targets[i], master, o)];
        }
        i := i + 1;
      }
      assert targets[..|targets|] == targets;
    }

    /**
     * The share loop of the INITILIZATION handler: to every participant but
     * `master`, a share generated at that participant's point, with the draw
     * numbered by the participant's position in the registry.
     */
    method SendShares(actors: Registry, priv: PrivateParameters, draws: Draws) returns (out: seq<Send>)
      ensures out == ShareSends(master, actors, priv, env, draws)
    {
      out := [];
      var i := 0;
      while i < |actors|
        invariant 0 <= i <= |actors|
        invariant out == ShareSends(master, actors[..i], priv, env, draws)
      {
        assert actors[..i + 1][..i] == actors[..i];
        if actors[i].0 != master {
          out := out + [Send(actors[i].0, master, PublicShare(env.genPublic(Some(actors[i].1), priv, draws(i + 2))))];
        }
        i := i + 1;
      }
      assert actors[..|actors|] == actors;
    }

    /** The complaint loop of the BGW_AWAITING_PjQj handler: one broadcast per invalid sender, in enumeration order. */
    method SendComplaints(bad: seq<Key>, targets: seq<Actor>) returns (out: seq<Send>)
      ensures out == Complaints(master, targets, bad)
    {
      out := [];
      var i := 0;
      while i < |bad|
        invariant 0 <= i <= |bad|
        invariant out == Complaints(master, targets, bad[..i])
      {
        assert bad[..i + 1][..i] == bad[..i];
        var sends := BroadCast(Complaint(bad[i]), targets);
        out := out + sends;
        i := i + 1;
      }
      assert bad[..|bad|] == bad;
    }

    /**
     * One event: `msg` from `sender`, with `draws` the samples the event
     * takes from the random source. The new state, the new data, the sends and whether a handler
     * matched are those of the transition function, and the invariant holds
     * again afterwards.
     */
    method Receive(msg: Msg, sender: Actor, draws: Draws) returns (outbox: seq<Send>, handled: bool)
      requires Valid()
      modifies this
      ensures Step(state, data, outbox, handled) == Next(Cfg(), old(state), old(data), msg, sender, draws)
      ensures Valid()
    {
      ghost var c := Cfg();
      ghost var before := Next(c, state, data, msg, sender, draws);
      NextPreservesInv(c, state, data, msg, sender, draws);
      if !Expects(state, msg) {
        outbox, handled := [], false;
        return;
      }
      handled := true;
      var actors := data.participants;
      if state.Initialization? {
        actors := msg.actors;
        var own := Lookup(actors, master);
        var priv := env.genPrivate(own, protocolParameters, draws(0));
        var selfShare := env.genPublic(own, priv, draws(1));
        var next := data.WithPrivateParameters(priv).WithNewShare(selfShare, own).WithParticipants(actors);
        outbox := SendShares(actors, priv, draws);
        state, data := AwaitingPjQj, next;
      } else if state.AwaitingPjQj? {
        var withShare := data.WithNewShare(msg.share, Lookup(actors, sender));
        if !withShare.HasShareOf(actors) {
          outbox := [];
          data := withShare;
        } else {
          var own := Lookup(actors, master);
          var bad := InvalidSenders(withShare.shares, protocolParameters, own, env.isCorrect);
          if |bad| > 0 {
            outbox := SendComplaints(bad, ActorsOf(actors));
            state := Stopped(InvalidShareFailure);
          } else {
            var ni := PartialProductOf(withShare.shares, protocolParameters.pp);
            outbox := BroadCast(PartialProduct(ni), ActorsOf(actors));
            state, data := AwaitingNi, withShare.WithNewNi(ni, own);
          }
        }
      } else {
        var withNi := data.WithNewNi(msg.ni, Lookup(actors, sender));
        if !withNi.HasNiOf(actors) {
          outbox := [];
          data := withNi;
        } else {
          var n := env.getIntercept(Values(withNi.nis), protocolParameters.pp);
          if master == self {
            outbox := [];
            state := Stopped(Normal);
          } else {
            outbox := [Send(master, self, BGWResult(n))];
            state, data := Initialization, Init();
          }
        }
      }
      assert Step(state, data, outbox, handled) == before;
    }
  }
}
