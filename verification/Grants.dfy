/** What owners have published about who may use the node, and how an incoming
    event changes it. */
module Grants {
  import opened Wrappers
  import opened Keys
  import opened Limit
  import opened Events
  import opened Profile

  datatype VerifiedGrant = VerifiedGrant(profile: UsageProfile, createdAt: u64, owner: PublicKey)

  datatype Rejected =
    | NoOwnersConfigured
    | NotAnOwner
    | NotAddressedToThisNode
    | WrongTarget
    | Superseded
    | Unparseable
    | WrongKind

  /** Reading a grant's content; total, and failing where the JSON is not a profile. */
  type ProfileParser = string -> Option<UsageProfile>

  /** Whom the event is about: its `d` value behind this node's key and a colon. */
  function Target(nodeHex: string, e: Event): Option<string> {
    match FirstValue(e.tags, "d")
    case None => None
    case Some(d) =>
      match SplitOnce(d, ':')
      case None => None
      case Some((node, controller)) =>
        if node != nodeHex || controller == "" then None else Some(controller)
  }

  /** A target is exactly what follows this node's key and a colon. */
  lemma TargetIsNamed(node: PublicKey, e: Event, target: string)
    ensures Target(ToHex(node), e) == Some(target)
       <==> target != "" && FirstValue(e.tags, "d") == Some(ToHex(node) + ":" + target)
  {
    var named := ToHex(node) + [':'] + target;
    assert named == ToHex(node) + ":" + target;
    assert ':' !in ToHex(node);
    SplitOnceFinds(ToHex(node), ':', target);
    var d := FirstValue(e.tags, "d");
    if d.Some? {
      SplitOnceSound(d.value, ':');
    }
  }

  /** The checks that need only the event, in order, and the target they find. */
  function Screen(node: Option<PublicKey>, owners: seq<PublicKey>, e: Event): Result<string, Rejected> {
    if node.None? then Failure(NoOwnersConfigured)
    else if e.kind != GRANT_KIND then Failure(WrongKind)
    else if owners == [] then Failure(NoOwnersConfigured)
    else if e.pubkey !in owners then Failure(NotAnOwner)
    else if !HasTag(e, "p", ToHex(node.value)) then Failure(NotAddressedToThisNode)
    else
      match Target(ToHex(node.value), e)
      case None => Failure(WrongTarget)
      case Some(target) => Success(target)
  }

  function GrantFrom(parse: ProfileParser, e: Event): VerifiedGrant {
    VerifiedGrant(parse(e.content).GetOr(EMPTY_PROFILE), e.createdAt, e.pubkey)
  }

  datatype GrantStore = GrantStore(
    node: Option<PublicKey>, owners: seq<PublicKey>,
    byController: map<string, VerifiedGrant>, others: Option<VerifiedGrant>)
  {
    function GetRaw(target: string): Option<VerifiedGrant> {
      if target == OTHERS then others else Get(byController, target)
    }

    function Set(target: string, grant: VerifiedGrant): GrantStore {
      if target == OTHERS then this.(others := Some(grant))
      else this.(byController := byController[target := grant])
    }

    predicate Supersedes(target: string, createdAt: u64) {
      GetRaw(target).Some? && createdAt < GetRaw(target).value.createdAt
    }

    function Apply(parse: ProfileParser, e: Event): (GrantStore, Result<string, Rejected>) {
      match Screen(node, owners, e)
      case Failure(why) => (this, Failure(why))
      case Success(target) =>
        if Supersedes(target, e.createdAt) then (this, Failure(Superseded))
        else (Set(target, GrantFrom(parse, e)),
              if parse(e.content).Some? then Success(target) else Failure(Unparseable))
    }

    /** The controller's own grant, else the one for everybody else. */
    function Resolve(controller: PublicKey): Result<VerifiedGrant, Denied> {
      if ToHex(controller) in byController then Success(byController[ToHex(controller)])
      else if others.Some? then Success(others.value)
      else Failure(Unauthorized)
    }

    /** The fallback grant is never filed as a controller's. */
    ghost predicate Tidy() {
      OTHERS !in byController
    }
  }

  function NoGrants(node: PublicKey, owners: seq<PublicKey>): GrantStore {
    GrantStore(Some(node), owners, map[], None)
  }

  /** The grants a running service holds. */
  class Grants {
    const node: Option<PublicKey>
    const owners: seq<PublicKey>
    var byController: map<string, VerifiedGrant>
    var others: Option<VerifiedGrant>

    ghost function View(): GrantStore
      reads this
    {
      GrantStore(node, owners, byController, others)
    }

    constructor (node: PublicKey, owners: seq<PublicKey>)
      ensures View() == NoGrants(node, owners)
    {
      this.node, this.owners := Some(node), owners;
      byController, others := map[], None;
    }

    method Apply(parse: ProfileParser, e: Event) returns (r: Result<string, Rejected>)
      modifies this
      ensures (View(), r) == old(View()).Apply(parse, e)
    {
      if node.None? {
        return Failure(NoOwnersConfigured);
      }
      if e.kind != GRANT_KIND {
        return Failure(WrongKind);
      }
      if owners == [] {
        return Failure(NoOwnersConfigured);
      }
      if e.pubkey !in owners {
        return Failure(NotAnOwner);
      }
      var nodeHex := ToHex(node.value);
      if !HasTag(e, "p", nodeHex) {
        return Failure(NotAddressedToThisNode);
      }
      var target := Target(nodeHex, e);
      if target.None? {
        return Failure(WrongTarget);
      }
      var controller := target.value;
      var existing := if controller == OTHERS then others else Get(byController, controller);
      if existing.Some? && e.createdAt < existing.value.createdAt {
        return Failure(Superseded);
      }
      var profile := parse(e.content).GetOr(EMPTY_PROFILE);
      var verified := VerifiedGrant(profile, e.createdAt, e.pubkey);
      if controller == OTHERS {
        others := Some(verified);
      } else {
        byController := byController[controller := verified];
      }
      if parse(e.content).Some? {
        r := Success(controller);
      } else {
        r := Failure(Unparseable);
      }
    }

    method Resolve(controller: PublicKey) returns (r: Result<VerifiedGrant, Denied>)
      ensures r == View().Resolve(controller)
    {
      if ToHex(controller) in byController {
        return Success(byController[ToHex(controller)]);
      }
      if others.Some? {
        return Success(others.value);
      }
      r := Failure(Unauthorized);
    }
  }
}
