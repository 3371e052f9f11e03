/** The committer's validation codes of a block: transactions that conflict with a chaincode
    upgrade in the same block. */
module UpgradeConflicts {
  import opened Common

  datatype Instance = Instance(chain: string, name: string, version: string)

  datatype Code = Valid | VersionConflict | MarshalError | Other(n: nat)

  /** The result of the checks on one entry of the block, up to the upgrade conflicts. */
  datatype Entry =
    | Absent                                              // no data: the flag stays as it was made
    | Rejected(code: Code)
    | Endorsed(invoked: Option<Instance>, upgraded: Option<Instance>, marshals: bool)
    | Config(applies: bool, marshals: bool)

  function CcKey(name: string, chain: string): string { name + "/" + chain }

  function KeyOf(cc: Instance): string { CcKey(cc.name, cc.chain) }

  type Instances = map<nat, Option<Instance>>

  predicate Names(ccs: Instances, t: nat, key: string) {
    t in ccs && ccs[t].Some? && KeyOf(ccs[t].value) == key
  }

  // ---------------------------------------------------------------- what the codes should be

  /** Transaction t upgrades a chaincode that a later one of these upgrades too. */
  ghost predicate Superseded(upgrades: Instances, t: nat) {
    && t in upgrades && upgrades[t].Some?
    && exists u :: t < u && Names(upgrades, u, KeyOf(upgrades[t].value))
  }

  ghost predicate Upgraded(upgrades: Instances, key: string) { exists u :: Names(upgrades, u, key) }

  ghost predicate InvokesUpgraded(names: Instances, upgrades: Instances, t: nat) {
    t in names && names[t].Some? && Upgraded(upgrades, KeyOf(names[t].value))
  }

  /** The code of transaction t, which had this code before. */
  ghost function Resolved(names: Instances, upgrades: Instances, t: nat, code: Code): Code {
    if Superseded(upgrades, t) then VersionConflict
    else if code == Valid && InvokesUpgraded(names, upgrades, t) then VersionConflict
    else code
  }

  // ---------------------------------------------------------------- the algorithm

  function Without(ccs: Instances, todo: set<nat>): Instances { map t | t in ccs && t !in todo :: ccs[t] }

  /** The latest upgrade of each chaincode among those seen. */
  ghost predicate Latest(seen: Instances, final: map<string, nat>) {
    && (forall k :: k in final ==> Names(seen, final[k], k))
    && (forall k, t :: Names(seen, t, k) ==> k in final && t <= final[k])
  }

  /** The maps are walked in any order. */
  method InvalidTxsForUpgradeCC(names: Instances, upgrades: Instances, flags: array<Code>)
    requires forall t :: t in names || t in upgrades ==> t < flags.Length
    modifies flags
    ensures forall t :: 0 <= t < flags.Length ==> flags[t] == Resolved(names, upgrades, t, old(flags[t]))
  {
    if upgrades == map[] {
      return;
    }
    var final := MarkSuperseded(upgrades, flags);
    var todo := names.Keys;
    while todo != {}
      invariant todo <= names.Keys
      invariant forall t :: 0 <= t < flags.Length ==>
          flags[t] == Resolved(Without(names, todo), upgrades, t, old(flags[t]))
    {
      var t :| t in todo;
      todo := todo - {t};
      match names[t] {
        case None =>
        case Some(cc) =>
          if KeyOf(cc) in final {
            if flags[t] == Valid {
              flags[t] := VersionConflict;
            }
          }
      }
    }
    assert Without(names, {}) == names;
  }

  /** One more upgrade supersedes, or is superseded by, the latest of its chaincode and no other. */
  lemma SeeUpgrade(seen: Instances, final: map<string, nat>, t: nat, cc: Instance)
    requires Latest(seen, final) && t !in seen
    ensures var k := KeyOf(cc); var seen' := seen[t := Some(cc)];
      && Latest(seen', final[k := if k in final then Max(final[k], t) else t])
      && forall u :: Superseded(seen', u) <==> Superseded(seen, u) || (k in final && u == Min(final[k], t))
  {
    var key := KeyOf(cc);
    var seen' := seen[t := Some(cc)];
    assert forall u, k :: Names(seen', u, k) <==> Names(seen, u, k) || (u == t && k == key);
    if key in final {
      assert Names(seen', Max(final[key], t), key);
    }
    forall u
      ensures Superseded(seen', u) <==> Superseded(seen, u) || (key in final && u == Min(final[key], t))
    {
      if Superseded(seen', u) {
        var k := KeyOf(seen'[u].value);
        var v :| u < v && Names(seen', v, k);
        assert Names(seen', u, k);
      }
    }
  }

  lemma NoUpgrade(seen: Instances, final: map<string, nat>, t: nat)
    requires Latest(seen, final) && t !in seen
    ensures Latest(seen[t := None], final)
    ensures forall u :: Superseded(seen[t := None], u) <==> Superseded(seen, u)
  {
    var seen' := seen[t := None];
    assert forall u, k :: Names(seen', u, k) <==> Names(seen, u, k);
  }

  method MarkSuperseded(upgrades: Instances, flags: array<Code>) returns (final: map<string, nat>)
    requires forall t :: t in upgrades ==> t < flags.Length
    modifies flags
    ensures Latest(upgrades, final)
    ensures forall t :: 0 <= t < flags.Length ==>
      flags[t] == if Superseded(upgrades, t) then VersionConflict else old(flags[t])
  {
    final := map[];
    var todo := upgrades.Keys;
    while todo != {}
      invariant todo <= upgrades.Keys
      invariant Latest(Without(upgrades, todo), final)
      invariant forall t :: 0 <= t < flags.Length ==>
          flags[t] == if Superseded(Without(upgrades, todo), t) then VersionConflict else old(flags[t])
    {
      var t :| t in todo;
      ghost var seen := Without(upgrades, todo);
      todo := todo - {t};
      ghost var seen' := Without(upgrades, todo);
      assert seen' == seen[t := upgrades[t]];
      match upgrades[t] {
        case None =>
          NoUpgrade(seen, final, t);
        case Some(cc) =>
          SeeUpgrade(seen, final, t, cc);
          var key := KeyOf(cc);
          if key !in final {
            final := final[key := t];
          } else if final[key] < t {
            flags[final[key]] := VersionConflict;
            final := final[key := t];
          } else {
            flags[t] := VersionConflict;
          }
      }
    }
    assert Without(upgrades, {}) == upgrades;
  }

  // ---------------------------------------------------------------- the whole block

  ghost function InvokedOf(block: seq<Entry>): Instances {
    map t: nat | t < |block| && block[t].Endorsed? :: block[t].invoked
  }

  ghost function UpgradedOf(block: seq<Entry>): Instances {
    map t: nat | t < |block| && block[t].Endorsed? && block[t].upgraded.Some? :: block[t].upgraded
  }

  /** An entry's code before upgrades are looked at. */
  function FirstCode(e: Entry): Code {
    match e
    case Absent => Valid
    case Rejected(code) => code
    case Endorsed(_, _, marshals) => if marshals then Valid else MarshalError
    case Config(_, marshals) => if marshals then Valid else MarshalError
  }

  predicate ConfigFails(e: Entry) { e.Config? && !e.applies }

  /** Validate writes the resolved code of every entry, or gives up on a configuration that cannot
      be applied. */
  method Validate(block: seq<Entry>) returns (codes: Option<seq<Code>>)
    ensures codes.None? <==> exists t :: 0 <= t < |block| && ConfigFails(block[t])
    ensures codes.Some? ==> |codes.value| == |block| && forall t :: 0 <= t < |block| ==>
      codes.value[t] == Resolved(InvokedOf(block), UpgradedOf(block), t, FirstCode(block[t]))
  {
    var flags := new Code[|block|](_ => Valid);
    var names: Instances, upgrades: Instances := map[], map[];
    for i := 0 to |block|
      invariant names == InvokedOf(block[..i]) && upgrades == UpgradedOf(block[..i])
      invariant forall t :: 0 <= t < i ==> !ConfigFails(block[t]) && flags[t] == FirstCode(block[t])
      invariant forall t :: i <= t < |block| ==> flags[t] == Valid
    {
      assert block[..i + 1][..i] == block[..i];
      match block[i] {
        case Absent =>
        case Rejected(code) => flags[i] := code;
        case Endorsed(invoked, upgraded, marshals) =>
          names := names[i := invoked];
          if upgraded.Some? {
            upgrades := upgrades[i := upgraded];
          }
          flags[i] := if marshals then Valid else MarshalError;
        case Config(applies, marshals) =>
          if !applies {
            return None;
          }
          flags[i] := if marshals then Valid else MarshalError;
      }
    }
    assert block[..|block|] == block;
    InvalidTxsForUpgradeCC(names, upgrades, flags);
    return Some(flags[..]);
  }

  // ---------------------------------------------------------------- consequences

  /** Of the upgrades of one chaincode in a block only the last can be valid, and then no other
      transaction that invokes the chaincode is. */
  lemma LastUpgradeStays(names: Instances, upgrades: Instances, t: nat, u: nat, code: Code, code': Code, key: string)
    requires Names(upgrades, t, key) && Resolved(names, upgrades, t, code) == Valid
    ensures Names(upgrades, u, key) ==> u <= t
    ensures Names(names, u, key) ==> Resolved(names, upgrades, u, code') != Valid
  {
    assert t < u && Names(upgrades, u, key) ==> Superseded(upgrades, t);
    assert Upgraded(upgrades, key);
  }

  /** Entry u of the block upgrades, or invokes, the chaincode with this key. */
  predicate UpgradesKey(block: seq<Entry>, u: nat, key: string) {
    u < |block| && block[u].Endorsed? && block[u].upgraded.Some? && KeyOf(block[u].upgraded.value) == key
  }

  predicate InvokesKey(block: seq<Entry>, u: nat, key: string) {
    u < |block| && block[u].Endorsed? && block[u].invoked.Some? && KeyOf(block[u].invoked.value) == key
  }

  /** A later entry upgrades the chaincode that entry t upgrades. */
  ghost predicate UpgradedLater(block: seq<Entry>, t: nat) {
    exists u, key :: t < u && UpgradesKey(block, t, key) && UpgradesKey(block, u, key)
  }

  /** Some entry upgrades the chaincode that entry t invokes. */
  ghost predicate UsesUpgraded(block: seq<Entry>, t: nat) {
    exists u, key :: InvokesKey(block, t, key) && UpgradesKey(block, u, key)
  }

  /** What the codes of a block mean, entry by entry: a rejected entry keeps its code, one without data
      counts as valid; an endorsed one is a conflict if it is upgraded later, cannot be marshalled, is a
      conflict if it uses an upgraded chaincode, or is valid; a configuration is valid if it can be
      marshalled. */
  lemma CodesMean(block: seq<Entry>, t: nat)
    requires t < |block|
    ensures var code := Resolved(InvokedOf(block), UpgradedOf(block), t, FirstCode(block[t]));
      match block[t]
      case Absent => code == Valid
      case Rejected(c) => code == c
      case Config(_, marshals) => (code == Valid <==> marshals) && (code == MarshalError <==> !marshals)
      case Endorsed(_, _, marshals) =>
        && (code == Valid <==> marshals && !UpgradedLater(block, t) && !UsesUpgraded(block, t))
        && (code == MarshalError <==> !marshals && !UpgradedLater(block, t))
        && (code == VersionConflict <==> UpgradedLater(block, t) || (marshals && UsesUpgraded(block, t)))
  {
    var names, upgrades := InvokedOf(block), UpgradedOf(block);
    assert forall u, key :: Names(upgrades, u, key) <==> UpgradesKey(block, u, key);
    assert forall u, key :: Names(names, u, key) <==> InvokesKey(block, u, key);
    if Superseded(upgrades, t) {
      var u :| t < u && Names(upgrades, u, KeyOf(upgrades[t].value));
      assert UpgradesKey(block, t, KeyOf(upgrades[t].value)) && UpgradesKey(block, u, KeyOf(upgrades[t].value));
    }
    if InvokesUpgraded(names, upgrades, t) {
      var u :| Names(upgrades, u, KeyOf(names[t].value));
      assert InvokesKey(block, t, KeyOf(names[t].value)) && UpgradesKey(block, u, KeyOf(names[t].value));
    }
  }

  // ---------------------------------------------------------------- keys

  /** Chaincodes of one chain have one key exactly when they have one name. */
  lemma KeyWithinChain(name: string, other: string, chain: string)
    ensures CcKey(name, chain) == CcKey(other, chain) <==> name == other
  {
    if CcKey(name, chain) == CcKey(other, chain) {
      assert |name| == |other|;
      assert name == CcKey(name, chain)[..|name|];
      assert other == CcKey(other, chain)[..|other|];
    }
  }

  /** One name continues the other past a slash, and the other's chain makes up for it. */
  predicate Overlaps(name: string, chain: string, longer: string, rest: string) {
    && |name| < |longer| && longer[..|name|] == name && longer[|name|] == '/'
    && chain == CcKey(longer[|name| + 1..], rest)
  }

  /** Across chains the key tells chaincodes apart except exactly those. */
  lemma KeyAcrossChains(name: string, chain: string, other: string, chain': string)
    ensures CcKey(name, chain) == CcKey(other, chain') <==>
      (name == other && chain == chain') || Overlaps(name, chain, other, chain') || Overlaps(other, chain', name, chain)
    ensures '/' !in name && '/' !in other ==>
      !Overlaps(name, chain, other, chain') && !Overlaps(other, chain', name, chain)
  {
    if |name| < |other| {
      KeyLonger(name, chain, other, chain');
    } else if |other| < |name| {
      KeyLonger(other, chain', name, chain);
    }
    var k, k' := CcKey(name, chain), CcKey(other, chain');
    assert name == k[..|name|] && other == k'[..|other|];
    assert chain == k[|name| + 1..] && chain' == k'[|other| + 1..];
  }

  lemma KeyLonger(name: string, chain: string, longer: string, rest: string)
    requires |name| < |longer|
    ensures CcKey(name, chain) == CcKey(longer, rest) <==> Overlaps(name, chain, longer, rest)
  {
    var k, k' := CcKey(name, chain), CcKey(longer, rest);
    assert k[..|name|] == name && k[|name|] == '/' && k[|name| + 1..] == chain;
    assert k'[..|name|] == longer[..|name|] && k'[|name|] == longer[|name|];
    assert k'[|name| + 1..] == CcKey(longer[|name| + 1..], rest);
    assert k == k[..|name|] + [k[|name|]] + k[|name| + 1..];
    assert k' == k'[..|name|] + [k'[|name|]] + k'[|name| + 1..];
  }

  lemma KeysCollide()
    ensures CcKey("a/b", "c") == CcKey("a", "b/c")
  {
    assert CcKey("a/b", "c") == "a/b/c" == CcKey("a", "b/c");
  }
}
