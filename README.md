# BGW protocol actor

A Dafny model of `BGWProtocolActor`, the Akka finite-state machine with which
one participant of the threshold Paillier key generation takes part in the
BGW computation of `N = P·Q` modulo the prime `Pp`.

The actor speaks for a `master` (itself when none is given). It moves through
three states:

- **INITILIZATION.** On the `Participants` message, the actor generates its
  private parameters at master's evaluation point. It records the share it
  generated for that point, stores the registry, and sends every other
  participant the share generated at that participant's point.
- **BGW_AWAITING_PjQj.** It records each share it receives under the
  sender's point, overwriting any earlier one. Once every registered point
  has a share, one of two things happens:
  - If some share fails the validity check, the intended behaviour, which
    the model follows, is to broadcast one complaint per invalid sender and
    stop with a failure reason. The code as written throws instead, before
    any complaint is sent (see "## Findings").
  - Otherwise it computes `Ni = (ΣPj·ΣQj + ΣHj) mod Pp`, broadcasts Ni and
    records it under master's point.
- **BGW_AWAITING_Ni.** It records each partial product it receives under the
  sender's point. Once every registered point has one, it interpolates `N`.
  An actor that is its own master then stops. Any other actor sends
  `BGWResult(N)` to its master and starts over from empty round data.

The model has these parts:

- `bgw_types.dfy`: the values, messages and registry.
- `bgw_data.dfy`: the round data (`BGWData`). Registry, private parameters,
  and the tables of shares and partial products keyed by evaluation point.
- `modular.dfy`: sums and residues.
- `bgw_protocol.dfy`: the transition function `Next`. From a state, the
  round data and a message it gives the next state, the next data, the sends
  in order, and whether a handler matched.
- `bgw_properties.dfy`: the promises of each transition, and the round-data
  invariant every transition keeps.
- `bgw_actor.dfy`: the actor as a class. Its fields `state` and `data` are
  updated by `Receive`, whose loops produce the sends. `Receive` is proved to
  do exactly what `Next` does.
- `stream_reuse.dfy`: the finding below.

The code the actor calls but whose text is not part of this model is a set of
arbitrary functions in `Collaborators`. That is the share generators
`BGWPrivateParameters.genFor` and `BGWPublicParameters.genFor`, the check
`isCorrect`, and `LagrangianInterpolation.getIntercept`. Every property holds
whatever those functions are. The random source (`SecureRandom`) becomes a
parameter `draws` of each event, which gives every generator call of the
event its own sample: `draws(0)` for the private parameters, `draws(1)` for
master's own share, and `draws(i + 2)` for the share sent to the participant
at position `i` of the registry.

Tables are kept in ascending key order, the absent key first. That is
assumed to be the order in which `shares()` and `nis()` enumerate entries,
as a `HashMap` with small positive `Integer` keys does. `getIntercept` receives
the partial products in that order. `actors.get(x)` of an unregistered actor
is Java's `null`, and that is the key `None`.

## Model

| member | source | states |
|---|---|---|
| BGWActor.BGWProtocolActor.constructor | src/main/java/actors/BGWProtocolActor.java:35-39 | a new actor keeps the parameters it was given; its master is the given master when there is one and the actor itself when the master is null; it starts in INITILIZATION with `BGWData.init()` and satisfies the round-data invariant |
| BGWActor.BGWProtocolActor.Receive | src/main/java/actors/BGWProtocolActor.java:41-108 | one event updates `state` and `data` and returns the sends in order, exactly as the transition function does; the invariant holds again afterwards |
| BGWActor.BGWProtocolActor.BroadCast | src/main/java/actors/BGWProtocolActor.java:115-117 | the loop over the targets tells `o`, as master, to each target but master, in target order |
| BGWActor.BGWProtocolActor.SendShares | src/main/java/actors/BGWProtocolActor.java:55-57 | the loop over the registry sends each participant but master the share generated at its own point |
| BGWActor.BGWProtocolActor.SendComplaints | src/main/java/actors/BGWProtocolActor.java:75 | the loop over the invalid senders broadcasts one complaint per sender, in enumeration order |
| BGWProtocol.Next | src/main/java/actors/BGWProtocolActor.java:41-108 | no contract; the transition function, dispatching on the state and the message's kind; characterised by the BGWProperties rows and by `Receive` |
| BGWProtocol.OnParticipants | src/main/java/actors/BGWProtocolActor.java:41-60 | no contract; characterised by ParticipantsSendOneShareEach and ParticipantsStartShareRound |
| BGWProtocol.OnShare | src/main/java/actors/BGWProtocolActor.java:64-86 | no contract; characterised by ShareRecordedUntilComplete, InvalidShareAborts, ComplaintsNameInvalidSenders, ComplaintsReachEveryParticipant, ValidSharesAdvance and NiBroadcastToEveryParticipant |
| BGWProtocol.OnNi | src/main/java/actors/BGWProtocolActor.java:89-108 | no contract; characterised by NiRecordedUntilComplete and CompleteNisDeliverResult |
| BGWProtocol.Broadcast | src/main/java/actors/BGWProtocolActor.java:115-117 | no contract; characterised by BroadcastReachesEachOnce and by the loop `BroadCast` |
| BGWProtocol.ShareSends | src/main/java/actors/BGWProtocolActor.java:55-57 | no contract; characterised by ShareSendsGoToParticipants, ShareSendsOnePerParticipant and the loop `SendShares` |
| BGWProtocol.InvalidSenders | src/main/java/actors/BGWProtocolActor.java:71-73 | the filter reports at most one key per recorded entry; characterised further by InvalidSendersAreTheInvalid, NoInvalidSendersIffAllCorrect and InvalidSendersAscending |
| BGWProtocol.Complaints | src/main/java/actors/BGWProtocolActor.java:75 | no contract; characterised by ComplaintsReachEachOnce and the loop `SendComplaints` |
| BGWTypes.Lookup | src/main/java/actors/BGWProtocolActor.java:44 | `actors.get(a)` is null exactly when `a` is not registered, and otherwise a point registered for `a` |
| BGWTypes.LookupRegistered | src/main/java/actors/BGWProtocolActor.java:43-44 | in a registry without repeated actors, looking up a registered actor gives its own point |
| BGWData.Get | src/main/java/actors/BGWProtocolActor.java:67 | a key has an entry exactly when it is among the table's keys, and the entry found is one the table holds |
| BGWData.Put | src/main/java/actors/BGWProtocolActor.java:67 | recording under a key adds that key to the table's keys and no other |
| BGWData.PutOverwrites | src/main/java/actors/BGWProtocolActor.java:67 | recording under a key replaces its entry: the key holds the new value, other keys keep theirs, the table grows only for a new key |
| BGWData.WithNewShare | src/main/java/actors/BGWProtocolActor.java:67 | `withNewShare` records or overwrites the share of one key and changes nothing else |
| BGWData.WithNewNi | src/main/java/actors/BGWProtocolActor.java:92 | `withNewNi` records or overwrites the partial product of one key and changes nothing else |
| BGWData.WithPrivateParameters | src/main/java/actors/BGWProtocolActor.java:51 | no contract; characterised by ParticipantsStartShareRound |
| BGWData.WithParticipants | src/main/java/actors/BGWProtocolActor.java:53 | no contract; characterised by ParticipantsStartShareRound |
| BGWData.HasShareOf | src/main/java/actors/BGWProtocolActor.java:68 | no contract; `hasShareOf(actors.values())`: every registered point has a share; characterised by ShareRecordedUntilComplete |
| BGWData.HasNiOf | src/main/java/actors/BGWProtocolActor.java:93 | no contract; `hasNiOf(actors.values())`: every registered point has a partial product; characterised by NiRecordedUntilComplete |
| BGWData.Values | src/main/java/actors/BGWProtocolActor.java:97-99 | no contract; `nis().map(getValue).collect(toList)`; characterised by CompleteNisDeliverResult |
| BGWProtocol.BroadcastReachesEachOnce | src/main/java/actors/BGWProtocolActor.java:115-117 | every broadcast send goes from master to a target other than master; with distinct targets each such target gets exactly one, and nobody else gets any |
| BGWProtocol.ShareSendsGoToParticipants | src/main/java/actors/BGWProtocolActor.java:55-57 | every share send goes, as master, to a registered participant other than master, and carries the share generated at that participant's point with its own draw |
| BGWProtocol.ShareSendsOnePerParticipant | src/main/java/actors/BGWProtocolActor.java:55-57 | with distinct actors each participant other than master gets exactly one share, generated at its point with its own draw |
| BGWProtocol.InvalidSendersAreTheInvalid | src/main/java/actors/BGWProtocolActor.java:71-73 | a key is reported invalid if and only if it was recorded with a share that fails `isCorrect` |
| BGWProtocol.NoInvalidSendersIffAllCorrect | src/main/java/actors/BGWProtocolActor.java:71-74 | no sender is reported if and only if every recorded share passes `isCorrect` |
| BGWProtocol.InvalidSendersAscending | src/main/java/actors/BGWProtocolActor.java:71-73 | the invalid senders come in ascending key order, so none is reported twice |
| BGWProtocol.ComplaintsReachEachOnce | src/main/java/actors/BGWProtocolActor.java:75 | every complaint goes from master to a target other than master and names a listed sender; with distinct targets and distinct senders, each such target gets each listed sender's complaint exactly once |
| BGWProtocol.PartialProductOf | src/main/java/actors/BGWProtocolActor.java:78-81 | `Ni` is a residue: `0 <= Ni < Pp` |
| BGWProtocol.ReducedSumsGiveSamePartialProduct | src/main/java/actors/BGWProtocolActor.java:78-81 | reducing the three sums modulo `Pp`, after every addition or once at the end, gives the same `Ni` |
| BGWProtocol.PartialProductOfResidues | src/main/java/actors/BGWProtocolActor.java:78-81 | when the shares sum to `P`, `Q` and `H` modulo `Pp`, `Ni = (P·Q + H) mod Pp` |
| Modular.Sum | src/main/java/actors/BGWProtocolActor.java:78-80 | no contract; the `reduce(ZERO, add)` fold over the sequence; characterised by SumModIsResidueOfSum |
| Modular.SumMod | src/main/java/actors/BGWProtocolActor.java:78-80 | the fold reduced modulo `p` after every addition is a residue, `0 <= r < p`; characterised further by SumModIsResidueOfSum |
| Modular.SumModIsResidueOfSum | src/main/java/actors/BGWProtocolActor.java:78-80 | a sum reduced after every addition is the residue of the plain sum |
| Modular.ResiduesDetermineProductSum | src/main/java/actors/BGWProtocolActor.java:81 | `(a·b + c) mod p` depends only on the residues of `a`, `b` and `c` |
| BGWProperties.ParticipantsSendOneShareEach | src/main/java/actors/BGWProtocolActor.java:55-57 | on `Participants`, each participant other than master gets exactly one share, generated at its point with its own draw and sent as master; nothing goes to master or to an unregistered actor |
| BGWProperties.ParticipantsStartShareRound | src/main/java/actors/BGWProtocolActor.java:43-59 | after `Participants` the actor awaits shares, holding the registry, the private parameters generated at master's point and master's own share under master's point; started from `init()`, that is the only share and there is no partial product |
| BGWProperties.ShareRecordedUntilComplete | src/main/java/actors/BGWProtocolActor.java:66-69 | a share is recorded under its sender's point; the actor leaves the state exactly when every registered point then has a share, and until then it stays and sends nothing |
| BGWProperties.InvalidShareAborts | src/main/java/actors/BGWProtocolActor.java:71-76 | with every point covered and some share invalid, the actor stops with "A BGW share was invalid.", keeps its data and sends only complaints |
| BGWProperties.ComplaintsNameInvalidSenders | src/main/java/actors/BGWProtocolActor.java:71-75 | each complaint goes as master to a registered participant other than master and names a sender whose share fails the check |
| BGWProperties.ComplaintsReachEveryParticipant | src/main/java/actors/BGWProtocolActor.java:75 | each participant other than master gets exactly one complaint per invalid sender |
| BGWProperties.ValidSharesAdvance | src/main/java/actors/BGWProtocolActor.java:78-83 | with every point covered and every share valid, the actor awaits partial products, keeps the shares and registry, and records `Ni` (a residue modulo `Pp`) under master's point, leaving other keys as they were |
| BGWProperties.NiBroadcastToEveryParticipant | src/main/java/actors/BGWProtocolActor.java:82 | that `Ni` goes as master to each participant other than master exactly once, and to nobody else |
| BGWProperties.NiRecordedUntilComplete | src/main/java/actors/BGWProtocolActor.java:91-95 | a partial product is recorded under its sender's point; the round completes exactly when every registered point then has one, and until then the actor stays and sends nothing |
| BGWProperties.CompleteNisDeliverResult | src/main/java/actors/BGWProtocolActor.java:97-106 | with every point covered, `N` is interpolated from the recorded partial products in point order; an actor that is its own master stops silently, any other sends exactly `BGWResult(N)` to master and returns to INITILIZATION with `BGWData.init()` (line 105): no registry, no private parameters, no shares and no partial products |
| BGWProperties.UnexpectedMessageChangesNothing | src/main/java/actors/BGWProtocolActor.java:41-108 | a handler runs exactly when the state expects the message's kind; otherwise state and data stay and nothing is sent |
| BGWProperties.StoppedIsFinal | src/main/java/actors/BGWProtocolActor.java:76 | a stopped actor handles nothing and sends nothing |
| BGWProperties.InitialStateSatisfiesInv | src/main/java/actors/BGWProtocolActor.java:39 | the initial state and data satisfy the round-data invariant |
| BGWProperties.NextPreservesInv | src/main/java/actors/BGWProtocolActor.java:41-108 | every transition keeps the invariant: empty data in INITILIZATION; master's share recorded and no partial product while awaiting shares; every point covered, all shares valid and master's `Ni` recorded while awaiting partial products |
| StreamReuse.InvalidShareBranchAsWritten | src/main/java/actors/BGWProtocolActor.java:71-76 | no contract; `count()` then `forEach` on one stream, the second throwing on the consumed stream; characterised by AsWrittenThrowsWhenSomeShareIsInvalid and AsWrittenSendsNoComplaint |
| StreamReuse.InvalidShareBranchCorrected | src/main/java/actors/BGWProtocolActor.java:71-76 | no contract; the invalid senders collected once, tested and each broadcast; characterised by CorrectedSendsTheComplaints and InvalidShareStepFollowsCorrectedBranch |
| StreamReuse.AsWrittenThrowsWhenSomeShareIsInvalid | src/main/java/actors/BGWProtocolActor.java:71-76 | as written, the branch throws `IllegalStateException` exactly when some sender is invalid, so no complaint is ever sent |
| StreamReuse.AsWrittenSendsNoComplaint | src/main/java/actors/BGWProtocolActor.java:71-76 | with A as master, participants A and B, and point 2 invalid, the code as written throws, while the intended code sends B one complaint about point 2 |
| StreamReuse.CorrectedSendsTheComplaints | src/main/java/actors/BGWProtocolActor.java:71-76 | the intended branch is taken exactly when some sender is invalid, never throws, and sends one complaint broadcast per invalid sender |
| StreamReuse.InvalidShareStepFollowsCorrectedBranch | src/main/java/actors/BGWProtocolActor.java:71-76 | on a share that completes the round with an invalid share, the transition function sends what the intended branch sends and the branch as written throws |

## Left out

- The Akka machinery is not modelled: the mailbox, `sender()` as an implicit
  value, `startWith`/`when`/`goTo`/`stay`, delivery of messages, and the
  supervision that follows an exception thrown by a handler. Each event is
  one call with the sender as a parameter.
- Messages sent to a stopped actor are not handled and change nothing. In
  Akka they become dead letters.
- The transition logging of lines 110-112 is console output only.
- Liveness is left out: whether every participant's share or partial
  product ever arrives, and whether a run ends.
- `SecureRandom` is left out as a source of randomness. Each generator call
  of an event gets its own sample from the parameter `draws`, so two shares
  generated at the same point are independent samples, as the source's
  successive calls on `sr` are. Nothing is assumed about how the samples
  are distributed.
- `BGWParameters`, `LagrangianInterpolation`, `ProtocolParameters` and
  `BGWData` are not part of this model as source text.
  - The first two are arbitrary functions.
  - `Pp` is a positive integer, because `BigInteger.mod` throws for any
    other modulus.
  - BGWData is modelled by its use here. Overwrite by key, a null key for an
    unregistered sender, and coverage of registered points.
  - The enumeration order of `shares()` and `nis()` is assumed to be
    ascending key order with the null key first, as a `HashMap` with small
    positive `Integer` keys enumerates. The order decides the order of
    the complaints and of the partial products handed to `getIntercept`.
- BGWProperties.ValidSharesAdvance: states `Ni` as `PartialProductOf` of the
  recorded shares. That is `(ΣPj·ΣQj + ΣHj) mod Pp` by definition. Its
  arithmetic is stated separately, by the lemmas about `PartialProductOf` in
  BGWProtocol.
- BGWProperties.NiBroadcastToEveryParticipant: states the broadcast `Ni` as
  `PartialProductOf` of the recorded shares, as above.
- `BigInteger` is unbounded and so is Dafny's `int`; no width is modelled.

## Findings

| source | as written | input that shows it | evidently intended | confidence | as-written member | corrected member |
|---|---|---|---|---|---|---|
| src/main/java/actors/BGWProtocolActor.java:71-76 | `badActors.count()` and then `badActors.forEach(...)` are two terminal operations on one `Stream`; the second throws `IllegalStateException`, so no complaint is sent and the stop with "A BGW share was invalid." is never reached | master A; participants A and B; every point has a share; the share recorded for point 2 fails `isCorrect` | collect the invalid senders into a list once, test its size, and broadcast a complaint for each element, then stop with the failure reason | high; not executed | StreamReuse.InvalidShareBranchAsWritten | StreamReuse.InvalidShareBranchCorrected |
