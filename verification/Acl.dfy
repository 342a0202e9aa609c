/** Doc-level authorization tuples, and the decision that reads them as stored. */
module Acl {
  import opened Stamps

  /** A length-framed key path, as bytes: an ancestor's path is a prefix of it. */
  type Path = seq<nat>

  datatype Subject = Actor(id: nat) | Group(name: seq<nat>) | Authenticated | Anonymous | Anyone

  datatype Capability = Read | Write | PublishAwareness | Own

  datatype Grant = Direct(capability: Capability) | Role(name: seq<nat>)

  datatype Effect = Allow | Deny

  /** What a tuple is keyed to: a fixed position, or an element wherever it now is. */
  datatype Scope = At(path: Path) | Element(id: nat)

  datatype Tuple = Tuple(id: nat, subject: Subject, grant: Grant, effect: Effect, scope: Scope, grantor: nat)

  datatype Querier = Querier(id: nat, groups: seq<seq<nat>>, roles: seq<seq<nat>>, authenticated: bool)

  datatype Decision = Allowed | Denied | Abstain

  /** The current path of an element, if it names a live one. */
  type Resolver = nat -> Option<Path>

  function Resolve(scope: Scope, resolve: Resolver): Option<Path> {
    match scope
    case At(p) => Some(p)
    case Element(id) => resolve(id)
  }

  predicate Covers(subject: Subject, actor: Querier) {
    match subject
    case Actor(id) => id == actor.id
    case Group(g) => g in actor.groups
    case Authenticated => actor.authenticated
    case Anonymous => !actor.authenticated
    case Anyone => true
  }

  /** A path governs itself and everything below it. */
  predicate Governs(scope: Path, target: Path) {
    scope <= target
  }

  /** A tuple has something to say of this actor at this path. */
  predicate Bears(t: Tuple, actor: Querier, path: Path, resolve: Resolver) {
    var at := Resolve(t.scope, resolve);
    at.Some? && Covers(t.subject, actor) && Governs(at.value, path)
  }

  ghost predicate Says(tuples: seq<Tuple>, actor: Querier, path: Path, resolve: Resolver, effect: Effect,
                       c: Capability) {
    exists t :: t in tuples && Bears(t, actor, path, resolve) && t.effect == effect && t.grant == Direct(c)
  }

  /** Deny overrides; an owner not denied ownership holds everything; then a direct allow. */
  ghost function Judged(tuples: seq<Tuple>, actor: Querier, path: Path, capability: Capability,
                        resolve: Resolver): Decision {
    if Says(tuples, actor, path, resolve, Deny, capability) then Denied
    else if Says(tuples, actor, path, resolve, Allow, Own) && !Says(tuples, actor, path, resolve, Deny, Own)
    then Allowed
    else if Says(tuples, actor, path, resolve, Allow, capability) then Allowed
    else Abstain
  }

  lemma SaysMore(tuples: seq<Tuple>, i: nat, actor: Querier, path: Path, resolve: Resolver, effect: Effect,
                 c: Capability)
    requires i < |tuples|
    ensures Says(tuples[..i + 1], actor, path, resolve, effect, c) <==>
            Says(tuples[..i], actor, path, resolve, effect, c) ||
            (Bears(tuples[i], actor, path, resolve) && tuples[i].effect == effect && tuples[i].grant == Direct(c))
  {
    assert tuples[..i + 1] == tuples[..i] + [tuples[i]];
  }

  /** The tuple tier's verdict, in one pass over the tuples. */
  method DecideCapability(tuples: seq<Tuple>, actor: Querier, path: Path, capability: Capability, resolve: Resolver)
      returns (decision: Decision)
    ensures decision == Judged(tuples, actor, path, capability, resolve)
  {
    hide Says, Bears;
    var denyCap, allowCap, denyOwn, allowOwn := false, false, false, false;
    assert forall e, c :: !Says(tuples[..0], actor, path, resolve, e, c) by {
      NothingSaid(tuples, actor, path, resolve);
    }
    var i := 0;
    while i < |tuples|
      invariant 0 <= i <= |tuples|
      invariant denyCap == Says(tuples[..i], actor, path, resolve, Deny, capability)
      invariant allowCap == Says(tuples[..i], actor, path, resolve, Allow, capability)
      invariant capability != Own ==> denyOwn == Says(tuples[..i], actor, path, resolve, Deny, Own)
      invariant capability != Own ==> allowOwn == Says(tuples[..i], actor, path, resolve, Allow, Own)
      invariant capability == Own ==> !denyOwn && !allowOwn
    {
      forall e, c
        ensures Says(tuples[..i + 1], actor, path, resolve, e, c) <==>
                Says(tuples[..i], actor, path, resolve, e, c) ||
                (Bears(tuples[i], actor, path, resolve) && tuples[i].effect == e && tuples[i].grant == Direct(c))
      {
        SaysMore(tuples, i, actor, path, resolve, e, c);
      }
      if Bears(tuples[i], actor, path, resolve) && tuples[i].grant.Direct? {
        var c := tuples[i].grant.capability;
        match tuples[i].effect {
          case Deny =>
            if c == capability {
              denyCap := true;
            } else if c == Own {
              denyOwn := true;
            }
          case Allow =>
            if c == capability {
              allowCap := true;
            } else if c == Own {
              allowOwn := true;
            }
        }
      }
      i := i + 1;
    }
    assert tuples[..i] == tuples;
    if denyCap {
      return Denied;
    }
    if allowOwn && !denyOwn {
      return Allowed;
    }
    if allowCap {
      return Allowed;
    }
    return Abstain;
  }

  lemma NothingSaid(tuples: seq<Tuple>, actor: Querier, path: Path, resolve: Resolver)
    ensures forall e, c :: !Says(tuples[..0], actor, path, resolve, e, c)
  {
    assert tuples[..0] == [];
  }

  /** The verdict reads only which tuples are present, not their order. */
  lemma JudgedAsSet(a: seq<Tuple>, b: seq<Tuple>, actor: Querier, path: Path, capability: Capability, resolve: Resolver)
    requires forall t :: t in a <==> t in b
    ensures Judged(a, actor, path, capability, resolve) == Judged(b, actor, path, capability, resolve)
  {
    forall e, c
      ensures Says(a, actor, path, resolve, e, c) <==> Says(b, actor, path, resolve, e, c)
    {
    }
  }
}
