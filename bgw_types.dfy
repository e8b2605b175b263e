/**
 * Values exchanged by the participants of the BGW computation of N = P·Q:
 * actor addresses, evaluation points, public shares, protocol parameters,
 * the messages of the protocol and the collaborators whose code is not part
 * of this model.
 */
module BGWTypes {

  datatype Option<+T> = None | Some(value: T)

  /** An actor address (Akka's ActorRef); only compared for equality. */
  datatype Actor = Actor(path: string)

  /** The evaluation point a participant is registered under (a Java Integer). */
  type Point = int

  /**
   * The key a share or a partial product is recorded under: the result of
   * looking an actor up in the registry, `None` when the actor is not
   * registered (Java's `Map.get` returning null).
   */
  type Key = Option<Point>

  /** The order in which recorded entries are enumerated: the absent key first, then ascending points. */
  predicate KeyLt(a: Key, b: Key) {
    b.Some? && (a.None? || a.value < b.value)
  }

  /** A modulus: `BigInteger.mod` is only defined for positive moduli. */
  type Modulus = m: int | m > 0 witness 1

  /** The protocol parameters; `pp` is the prime modulus `Pp`. */
  datatype ProtocolParameters = ProtocolParameters(pp: Modulus)

  /**
   * A participant's secret polynomial coefficients (BGWPrivateParameters);
   * produced and consumed only by the collaborators.
   */
  datatype PrivateParameters = PrivateParameters(coefficients: seq<int>)

  /** An evaluation of a participant's three polynomials at one point (BGWPublicParameters). */
  datatype Share = Share(pj: int, qj: int, hj: int)

  /** A sample of the participant's random source, handed to the share generators. */
  type Randomness = nat

  /**
   * The samples one event draws from the random source (`SecureRandom`):
   * every generator call of the event gets its own, `draws(n)` for the call
   * numbered `n`.
   */
  type Draws = nat -> Randomness

  /**
   * The code the protocol actor calls but that is not part of this model,
   * as arbitrary functions:
   *  - genPrivate: BGWPrivateParameters.genFor(ownPoint, parameters, random)
   *  - genPublic: BGWPublicParameters.genFor(targetPoint, privateParameters, random)
   *  - isCorrect: share.isCorrect(parameters, ownPoint, senderPoint)
   *  - getIntercept: LagrangianInterpolation.getIntercept(values, Pp)
   */
  datatype Collaborators = Collaborators(
    genPrivate: (Key, ProtocolParameters, Randomness) -> PrivateParameters,
    genPublic: (Key, PrivateParameters, Randomness) -> Share,
    isCorrect: (Share, ProtocolParameters, Key, Key) -> bool,
    getIntercept: (seq<int>, Modulus) -> int)

  /** No actor appears twice: a Java Map's key set. */
  predicate DistinctActors(r: seq<(Actor, Point)>) {
    forall i, j | 0 <= i < j < |r| :: r[i].0 != r[j].0
  }

  /** The participant registry (Map<ActorRef, Integer>) in its iteration order. */
  type Registry = r: seq<(Actor, Point)> | DistinctActors(r)

  /** The messages the protocol actor receives or sends. */
  datatype Msg =
    | Participants(actors: Registry)   // the registry that starts a run
    | PublicShare(share: Share)        // a BGWPublicParameters value
    | PartialProduct(ni: int)          // a bare BigInteger Ni
    | Complaint(id: Key)               // Messages.Complaint
    | BGWResult(n: int)                // Messages.BGWResult

  /** One `tell`: `to.tell(payload, from)`. */
  datatype Send = Send(to: Actor, from: Actor, payload: Msg)

  /** The point registered for `a`, `None` when `a` is not registered (`actors.get(a)`). */
  function Lookup(reg: seq<(Actor, Point)>, a: Actor): (k: Key)
    ensures k.None? <==> forall i | 0 <= i < |reg| :: reg[i].0 != a
    ensures k.Some? ==> exists i | 0 <= i < |reg| :: reg[i] == (a, k.value)
  {
    if reg == [] then None
    else if reg[0].0 == a then Some(reg[0].1)
    else
      var k := Lookup(reg[1..], a);
      assert k.Some? ==> exists i | 0 <= i < |reg[1..]| :: reg[1..][i] == (a, k.value);
      k
  }

  /** In a registry without repeated actors, each registered actor finds its own point. */
  lemma {:induction false} LookupRegistered(reg: seq<(Actor, Point)>, i: int)
    requires DistinctActors(reg)
    requires 0 <= i < |reg|
    ensures Lookup(reg, reg[i].0) == Some(reg[i].1)
  {
    if i > 0 {
      assert reg[0].0 != reg[i].0;
      assert DistinctActors(reg[1..]) by {
        forall a, b | 0 <= a < b < |reg[1..]| ensures reg[1..][a].0 != reg[1..][b].0 {
          assert reg[1..][a] == reg[a + 1] && reg[1..][b] == reg[b + 1];
        }
      }
      LookupRegistered(reg[1..], i - 1);
      assert reg[1..][i - 1] == reg[i];
    }
  }

  /** No element appears twice. */
  predicate Distinct<T(==)>(xs: seq<T>) {
    forall i, j | 0 <= i < j < |xs| :: xs[i] != xs[j]
  }

  /** The registered actors in registry order (`actors.keySet()`). */
  function ActorsOf(reg: seq<(Actor, Point)>): (targets: seq<Actor>)
    ensures |targets| == |reg|
    ensures forall i | 0 <= i < |reg| :: targets[i] == reg[i].0
    ensures DistinctActors(reg) ==> Distinct(targets)
  {
    seq(|reg|, i requires 0 <= i < |reg| => reg[i].0)
  }
}
