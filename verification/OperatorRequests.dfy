/**
 What an operator command request is, the fingerprint that binds its password,
 and the comparison that decides whether a reused command_id is a replay.

 JSON and SHA-256 stay abstract: a Codec supplies the canonical JSON of the
 parameters, the lossy decoding the semantic comparison works on, and the digest.
 */
module OperatorRequests {
  /** Go byte strings; one char per byte. */
  type Bytes = string

  const NUL := '\0'

  /** The credential-free operation parameters of the three operator routes. */
  datatype Params =
    | Create(username: string, permissions: seq<string>, enabled: bool)
    | SetAccess(id: int, permissions: seq<string>, enabled: bool)
    | SetPassword(id: int)

  datatype Request = Request(commandId: string, actor: string, reason: string, dryRun: bool,
                             params: Params, password: Bytes)

  function Action(p: Params): (a: Bytes)
    ensures NUL !in a
  {
    match p
    case Create(_, _, _) => "create-admin-operator"
    case SetAccess(_, _, _) => "set-admin-operator-access"
    case SetPassword(_) => "set-admin-operator-password"
  }

  /** marshal is json.Marshal of the parameters, decode is json.Unmarshal into float64-backed values. */
  datatype Codec<!Decoded(!new)> = Codec(marshal: Params -> Bytes, decode: Bytes -> Decoded, digest: Bytes -> Bytes) {
    ghost predicate Sound() {
      && (forall p :: NUL !in marshal(p))
      && (forall p, q :: marshal(p) == marshal(q) ==> p == q)
      && (forall a, b :: digest(a) == digest(b) ==> a == b)
    }
  }

  function Preimage(action: Bytes, params: Bytes, password: Bytes): Bytes {
    action + [NUL] + params + [NUL] + password
  }

  /** The NUL framing is injective whenever action and parameters carry no NUL; the password may. */
  lemma PreimageInjective(a1: Bytes, p1: Bytes, w1: Bytes, a2: Bytes, p2: Bytes, w2: Bytes)
    requires NUL !in a1 && NUL !in a2 && NUL !in p1 && NUL !in p2
    requires Preimage(a1, p1, w1) == Preimage(a2, p2, w2)
    ensures a1 == a2 && p1 == p2 && w1 == w2
  {
    FirstNul(a1, p1 + [NUL] + w1, a2, p2 + [NUL] + w2, Preimage(a1, p1, w1));
    FirstNul(p1, w1, p2, w2, p1 + [NUL] + w1);
  }

  lemma FirstNul(x1: Bytes, y1: Bytes, x2: Bytes, y2: Bytes, whole: Bytes)
    requires NUL !in x1 && NUL !in x2
    requires whole == x1 + [NUL] + y1 == x2 + [NUL] + y2
    ensures x1 == x2 && y1 == y2
  {
    assert whole[|x1|] == NUL && whole[|x2|] == NUL;
    assert forall i :: 0 <= i < |x1| ==> whole[i] == x1[i] && x1[i] in x1;
    assert forall i :: 0 <= i < |x2| ==> whole[i] == x2[i] && x2[i] in x2;
    assert whole[..|x1|] == x1 && whole[..|x2|] == x2;
    assert whole[|x1| + 1..] == y1 && whole[|x2| + 1..] == y2;
  }

  /** Without the NUL-free parameters the framing is ambiguous. */
  lemma PreimageCollidesOnNulParams()
    ensures Preimage("a", [NUL], "") == Preimage("a", "", [NUL])
  {
  }

  /** The envelope stored in admin_commands.request; it never holds the password. */
  datatype Envelope = Envelope(commandId: string, actor: string, reason: string, dryRun: bool,
                               fingerprint: Bytes, params: Bytes)

  function Seal<D(!new)>(c: Codec<D>, r: Request): Envelope {
    var params := c.marshal(r.params);
    Envelope(r.commandId, r.actor, r.reason, r.dryRun,
             c.digest(Preimage(Action(r.params), params, r.password)), params)
  }

  /** reflect.DeepEqual of the two decoded envelopes: strings exactly, parameters only up to decode. */
  ghost predicate SameEnvelope<D(!new)>(c: Codec<D>, a: Envelope, b: Envelope) {
    && a.commandId == b.commandId && a.actor == b.actor && a.reason == b.reason && a.dryRun == b.dryRun
    && a.fingerprint == b.fingerprint
    && c.decode(a.params) == c.decode(b.params)
  }

  /** The test a conflicting claim runs against the row that is already there. */
  ghost predicate Replays<D(!new)>(c: Codec<D>, stored: Request, incoming: Request) {
    && Action(stored.params) == Action(incoming.params)
    && stored.dryRun == incoming.dryRun
    && SameEnvelope(c, Seal(c, stored), Seal(c, incoming))
  }

  /** Replay exactly for the identical request, password included, however lossy the decoding is. */
  lemma ReplaysExactlyTheSameRequest<D(!new)>(c: Codec<D>, stored: Request, incoming: Request)
    requires c.Sound()
    ensures Replays(c, stored, incoming) <==> stored == incoming
  {
    if Replays(c, stored, incoming) {
      PreimageInjective(Action(stored.params), c.marshal(stored.params), stored.password,
                        Action(incoming.params), c.marshal(incoming.params), incoming.password);
    }
  }

  /** The fingerprint is what makes it exact: under a lossy decode two different id's agree on everything else. */
  lemma LossyParamsNeedTheFingerprint<D(!new)>(c: Codec<D>, r: Request, p: Params)
    requires c.Sound() && p != r.params && c.decode(c.marshal(p)) == c.decode(c.marshal(r.params))
    ensures var other := r.(params := p);
            && !Replays(c, r, other)
            && SameEnvelope(c, Seal(c, r), Seal(c, other).(fingerprint := Seal(c, r).fingerprint))
  {
    ReplaysExactlyTheSameRequest(c, r, r.(params := p));
  }
}
