/** The data part of the workforce migration: skills and their first versions from skill packs,
    and assignments from the skill lists of the agents.

    Rows are kept in the order the database returns them.  None of the queries has an ORDER BY,
    so a later run may see the same rows in another order.
 */
module SkillBackfill {
  import opened Wrappers

  /** `skills` is `None` when the column is empty, is not JSON or is not a list; rows with a NULL
      column are not selected. */
  datatype Agent = Agent(id: nat, owner: nat, skills: Option<seq<string>>)

  datatype Pack = Pack(
    id: nat, slug: string, name: string, description: Option<string>, rules: Option<string>,
    capabilities: Option<string>, tools: Option<string>)

  datatype Skill = Skill(
    id: nat, owner: nat, slug: string, name: string, description: string, pack: nat, current: Option<nat>)

  datatype Version = Version(
    id: nat, skill: nat, number: nat, purpose: string, instructions: string,
    capabilities: string, tools: string, isPublished: bool)

  datatype Assignment = Assignment(id: nat, agent: nat, skill: nat)

  // ---------------------------------------------------------------- who owns a migrated pack

  predicate Names(a: Agent, slug: string) { a.skills.Some? && slug in a.skills.value }

  /** The distinct owners whose agents name the slug, in the order they were first seen. */
  function Referencing(agents: seq<Agent>, slug: string): seq<nat> {
    if agents == [] then []
    else
      var seen := Referencing(agents[..|agents| - 1], slug);
      var a := agents[|agents| - 1];
      if Names(a, slug) && a.owner !in seen then seen + [a.owner] else seen
  }

  /** How many agents an owner has, readable list or not. */
  function AgentCount(agents: seq<Agent>, owner: nat): nat {
    if agents == [] then 0
    else AgentCount(agents[..|agents| - 1], owner) + if agents[|agents| - 1].owner == owner then 1 else 0
  }

  /** The keys of the counting dictionary, in insertion order. */
  function Owners(agents: seq<Agent>): seq<nat> {
    if agents == [] then []
    else
      var seen := Owners(agents[..|agents| - 1]);
      var o := agents[|agents| - 1].owner;
      if o in seen then seen else seen + [o]
  }

  /** The first of `owners` with the most agents. */
  function MostAgents(agents: seq<Agent>, owners: seq<nat>): Option<nat> {
    if owners == [] then None
    else
      var o := owners[|owners| - 1];
      match MostAgents(agents, owners[..|owners| - 1])
      case None => Some(o)
      case Some(best) => if AgentCount(agents, o) > AgentCount(agents, best) then Some(o) else Some(best)
  }

  function Modal(agents: seq<Agent>): Option<nat> { MostAgents(agents, Owners(agents)) }

  function ChosenOwner(agents: seq<Agent>, slug: string): Option<nat> {
    var owners := Referencing(agents, slug);
    if owners != [] then Some(owners[0]) else Modal(agents)
  }

  /** The first referencing owner is the owner of the earliest agent that names the slug. */
  lemma {:induction false} ReferencingStartsWithEarliest(agents: seq<Agent>, slug: string)
    ensures var owners := Referencing(agents, slug);
            if owners == [] then forall i :: 0 <= i < |agents| ==> !Names(agents[i], slug)
            else exists i :: Earliest(agents, slug, i) && agents[i].owner == owners[0]
  {
    if agents != [] {
      var earlier, n := agents[..|agents| - 1], |agents| - 1;
      ReferencingStartsWithEarliest(earlier, slug);
      if Referencing(earlier, slug) != [] {
        var i :| Earliest(earlier, slug, i) && earlier[i].owner == Referencing(earlier, slug)[0];
        assert Earliest(agents, slug, i);
      } else {
        assert forall i :: 0 <= i < n ==> agents[i] == earlier[i];
        if Names(agents[n], slug) { assert Earliest(agents, slug, n); }
      }
    }
  }

  ghost predicate Earliest(agents: seq<Agent>, slug: string, i: int) {
    0 <= i < |agents| && Names(agents[i], slug) && forall j :: 0 <= j < i ==> !Names(agents[j], slug)
  }

  lemma {:induction false} OwnersAreAll(agents: seq<Agent>)
    ensures forall a :: a in agents ==> a.owner in Owners(agents)
    ensures forall o :: o in Owners(agents) ==> exists a :: a in agents && a.owner == o
  {
    if agents != [] {
      var earlier, last := agents[..|agents| - 1], agents[|agents| - 1];
      assert agents == earlier + [last];
      OwnersAreAll(earlier);
      forall o | o in Owners(agents) ensures exists a :: a in agents && a.owner == o {
        if o in Owners(earlier) {
          var a :| a in earlier && a.owner == o;
          assert a in agents;
        } else {
          assert last in agents && last.owner == o;
        }
      }
    }
  }

  lemma {:induction false} MostAgentsIsMaximal(agents: seq<Agent>, owners: seq<nat>)
    requires owners != []
    ensures MostAgents(agents, owners).Some? && MostAgents(agents, owners).value in owners
    ensures forall o :: o in owners ==> AgentCount(agents, o) <= AgentCount(agents, MostAgents(agents, owners).value)
  {
    var earlier, last := owners[..|owners| - 1], owners[|owners| - 1];
    assert owners == earlier + [last];
    if earlier != [] { MostAgentsIsMaximal(agents, earlier); }
  }

  /** The fallback exists when there is any agent, and owns at least as many agents as anybody. */
  lemma ModalIsMaximal(agents: seq<Agent>)
    ensures Modal(agents).Some? <==> agents != []
    ensures Modal(agents).Some? ==>
              && (exists a :: a in agents && a.owner == Modal(agents).value)
              && forall a :: a in agents ==> AgentCount(agents, a.owner) <= AgentCount(agents, Modal(agents).value)
  {
    OwnersAreAll(agents);
    if agents != [] {
      assert agents[0] in agents;
      MostAgentsIsMaximal(agents, Owners(agents));
    }
  }

  lemma {:induction false} MostAgentsIsFirst(agents: seq<Agent>, owners: seq<nat>) returns (k: nat)
    requires owners != []
    ensures FirstOfMost(agents, owners, k) && MostAgents(agents, owners) == Some(owners[k])
  {
    var earlier, last := owners[..|owners| - 1], owners[|owners| - 1];
    assert owners == earlier + [last];
    if earlier == [] {
      k := 0;
      assert MostAgents(agents, earlier) == None;
    } else {
      k := MostAgentsIsFirst(agents, earlier);
      OneMoreOwner(agents, earlier, last, k);
      if AgentCount(agents, last) > AgentCount(agents, owners[k]) { k := |earlier|; }
    }
  }

  lemma OneMoreOwner(agents: seq<Agent>, owners: seq<nat>, o: nat, k: int)
    requires FirstOfMost(agents, owners, k)
    ensures FirstOfMost(agents, owners + [o], if AgentCount(agents, o) > AgentCount(agents, owners[k]) then |owners| else k)
  {
    var all := owners + [o];
    assert forall j :: 0 <= j < |owners| ==> all[j] == owners[j];
  }

  /** Nobody in the list has more agents, and those before fewer. */
  ghost predicate FirstOfMost(agents: seq<Agent>, owners: seq<nat>, k: int) {
    && 0 <= k < |owners|
    && (forall j :: 0 <= j < |owners| ==> AgentCount(agents, owners[j]) <= AgentCount(agents, owners[k]))
    && (forall j :: 0 <= j < k ==> AgentCount(agents, owners[j]) < AgentCount(agents, owners[k]))
  }

  /** The agent with which owner number `k` came in; those before it have earlier owners. */
  ghost predicate CameInWith(agents: seq<Agent>, k: nat, i: int)
    requires k < |Owners(agents)|
  {
    0 <= i < |agents| && agents[i].owner == Owners(agents)[k] && forall j :: 0 <= j < i ==> agents[j].owner in Owners(agents)[..k]
  }

  lemma {:induction false} OwnersInOrder(agents: seq<Agent>, k: nat) returns (i: nat)
    requires k < |Owners(agents)|
    ensures CameInWith(agents, k, i)
  {
    var n, earlier := |agents| - 1, agents[..|agents| - 1];
    assert forall j :: 0 <= j < n ==> earlier[j] == agents[j];
    if k < |Owners(earlier)| {
      i := OwnersInOrder(earlier, k);
      assert Owners(agents)[..k] == Owners(earlier)[..k];
    } else {
      i := n;
      OwnersAreAll(earlier);
      assert Owners(agents)[..k] == Owners(earlier);
      forall j | 0 <= j < n ensures agents[j].owner in Owners(agents)[..k] { assert earlier[j] in earlier; }
    }
  }

  /** Of the owners with the most agents the fallback is the one whose first agent comes first. */
  lemma ModalCameFirst(agents: seq<Agent>)
    requires agents != []
    ensures Modal(agents).Some?
    ensures exists i :: 0 <= i < |agents| && agents[i].owner == Modal(agents).value &&
              forall j :: 0 <= j < i ==> AgentCount(agents, agents[j].owner) < AgentCount(agents, Modal(agents).value)
  {
    ModalIsMaximal(agents);
    OwnersAreAll(agents);
    assert agents[0] in agents;
    var owners := Owners(agents);
    var k := MostAgentsIsFirst(agents, owners);
    var i := OwnersInOrder(agents, k);
    forall j | 0 <= j < i ensures AgentCount(agents, agents[j].owner) < AgentCount(agents, owners[k]) {
      var m :| 0 <= m < |owners[..k]| && owners[..k][m] == agents[j].owner;
      assert owners[m] == agents[j].owner;
    }
  }

  // ---------------------------------------------------------------- skills and versions

  /** `next` is the next identifier nobody uses. */
  datatype Catalog = Catalog(skills: seq<Skill>, versions: seq<Version>, next: nat)

  function OrEmpty(s: Option<string>): string { if s.Some? then s.value else "" }

  /** A JSON list as text, the empty list if there is none. */
  function OrList(s: Option<string>): string { if s.Some? && s.value != "" then s.value else "[]" }

  predicate HasSkill(skills: seq<Skill>, owner: nat, slug: string) {
    exists i :: 0 <= i < |skills| && skills[i].owner == owner && skills[i].slug == slug
  }

  function NewSkill(c: Catalog, p: Pack, owner: nat): Skill {
    Skill(c.next, owner, p.slug, p.name, OrEmpty(p.description), p.id, Some(c.next + 1))
  }

  function NewVersion(c: Catalog, p: Pack): Version {
    Version(c.next + 1, c.next, 1, OrEmpty(p.description), OrEmpty(p.rules), OrList(p.capabilities), OrList(p.tools), true)
  }

  function Migrate(c: Catalog, agents: seq<Agent>, p: Pack): Catalog {
    match ChosenOwner(agents, p.slug)
    case None => c
    case Some(owner) =>
      if HasSkill(c.skills, owner, p.slug) then c
      else Catalog(c.skills + [NewSkill(c, p, owner)], c.versions + [NewVersion(c, p)], c.next + 2)
  }

  function MigrateAll(c: Catalog, agents: seq<Agent>, packs: seq<Pack>): Catalog {
    if packs == [] then c else Migrate(MigrateAll(c, agents, packs[..|packs| - 1]), agents, packs[|packs| - 1])
  }

  predicate OwnFirstVersion(c: Catalog, i: nat)
    requires i < |c.skills| && i < |c.versions|
  {
    && c.skills[i].current == Some(c.versions[i].id)
    && c.versions[i].skill == c.skills[i].id
    && c.versions[i].number == 1
    && c.versions[i].purpose == c.skills[i].description
  }

  /** One skill a slug, owned by the chosen owner; skill number `i` has version number `i`, its
      own version 1, as its current version; all identifiers are different. */
  ghost predicate Tidy(c: Catalog, agents: seq<Agent>, first: nat) {
    && |c.skills| == |c.versions| && c.next == first + 2 * |c.skills|
    && (forall i :: 0 <= i < |c.skills| ==> SkillTidy(c, agents, first, i))
    && (forall i, j :: 0 <= i < j < |c.skills| ==> c.skills[i].slug != c.skills[j].slug)
  }

  predicate SkillTidy(c: Catalog, agents: seq<Agent>, first: nat, i: nat)
    requires i < |c.skills| && i < |c.versions|
  {
    && OwnFirstVersion(c, i)
    && c.skills[i].id == first + 2 * i && c.versions[i].id == first + 2 * i + 1
    && ChosenOwner(agents, c.skills[i].slug) == Some(c.skills[i].owner)
  }

  lemma MigrateKeepsTidy(c: Catalog, agents: seq<Agent>, first: nat, p: Pack)
    requires Tidy(c, agents, first)
    ensures Tidy(Migrate(c, agents, p), agents, first)
  {
    var c' := Migrate(c, agents, p);
    if c' != c {
      var n := |c.skills|;
      forall i | 0 <= i <= n ensures SkillTidy(c', agents, first, i) {
        if i < n { assert SkillTidy(c, agents, first, i); }
      }
      forall i | 0 <= i < n ensures c'.skills[i].slug != p.slug {
        assert SkillTidy(c, agents, first, i);
      }
    }
  }

  /** From empty tables: at most one skill a slug, each with its own version 1. */
  lemma {:induction false} BackfillIsTidy(first: nat, agents: seq<Agent>, packs: seq<Pack>)
    ensures Tidy(MigrateAll(Catalog([], [], first), agents, packs), agents, first)
  {
    if packs != [] {
      BackfillIsTidy(first, agents, packs[..|packs| - 1]);
      MigrateKeepsTidy(MigrateAll(Catalog([], [], first), agents, packs[..|packs| - 1]), agents, first, packs[|packs| - 1]);
    }
  }

  predicate HasPack(packs: seq<Pack>, slug: string) { exists p :: p in packs && p.slug == slug }

  lemma HasPackSplit(packs: seq<Pack>, slug: string)
    requires packs != []
    ensures HasPack(packs, slug) <==> HasPack(packs[..|packs| - 1], slug) || packs[|packs| - 1].slug == slug
  {
    var earlier, last := packs[..|packs| - 1], packs[|packs| - 1];
    assert packs == earlier + [last];
    if HasPack(earlier, slug) {
      var p :| p in earlier && p.slug == slug;
      assert p in packs;
    }
    assert last in packs;
  }

  lemma MigrateAdds(c: Catalog, agents: seq<Agent>, p: Pack, owner: nat, slug: string)
    ensures HasSkill(Migrate(c, agents, p).skills, owner, slug) <==>
            HasSkill(c.skills, owner, slug) || (p.slug == slug && ChosenOwner(agents, slug) == Some(owner))
  {
    var c' := Migrate(c, agents, p);
    if c' != c {
      assert c'.skills[|c.skills|] == NewSkill(c, p, ChosenOwner(agents, p.slug).value);
      if HasSkill(c.skills, owner, slug) {
        var i :| 0 <= i < |c.skills| && c.skills[i].owner == owner && c.skills[i].slug == slug;
        assert c'.skills[i] == c.skills[i];
      }
    }
  }

  /** Exactly the skills of the packs that have a chosen owner are added, whatever was there. */
  lemma {:induction false} SkillsAfter(c: Catalog, agents: seq<Agent>, packs: seq<Pack>, owner: nat, slug: string)
    ensures HasSkill(MigrateAll(c, agents, packs).skills, owner, slug) <==>
            HasSkill(c.skills, owner, slug) || (HasPack(packs, slug) && ChosenOwner(agents, slug) == Some(owner))
  {
    if packs != [] {
      SkillsAfter(c, agents, packs[..|packs| - 1], owner, slug);
      HasPackSplit(packs, slug);
      MigrateAdds(MigrateAll(c, agents, packs[..|packs| - 1]), agents, packs[|packs| - 1], owner, slug);
    }
  }

  /** Row `i` is made from the earliest pack with its slug. */
  ghost predicate FromEarliestPack(c: Catalog, packs: seq<Pack>, i: nat)
    requires i < |c.skills| && i < |c.versions|
  {
    exists k :: 0 <= k < |packs| && MadeFrom(c.skills[i], c.versions[i], packs[k]) &&
      forall j :: 0 <= j < k ==> packs[j].slug != packs[k].slug
  }

  predicate MadeFrom(s: Skill, v: Version, p: Pack) {
    && s.slug == p.slug && s.name == p.name && s.pack == p.id && v.isPublished
    && s.description == v.purpose
    && Carried(s.description, p.description, "") && Carried(v.instructions, p.rules, "")
    && Carried(v.capabilities, p.capabilities, "[]") && Carried(v.tools, p.tools, "[]")
  }

  /** The pack's text, or the default where the pack has none or an empty one. */
  predicate Carried(text: string, given: Option<string>, default: string) {
    && (given.Some? && given.value != "" ==> text == given.value)
    && (given == None || given == Some("") ==> text == default)
  }

  lemma EarliestPackStays(c: Catalog, packs: seq<Pack>, c': Catalog, packs': seq<Pack>, i: nat)
    requires i < |c.skills| && i < |c.versions| && FromEarliestPack(c, packs, i)
    requires c.skills <= c'.skills && c.versions <= c'.versions && packs <= packs'
    ensures FromEarliestPack(c', packs', i)
  {
    var k :| 0 <= k < |packs| && MadeFrom(c.skills[i], c.versions[i], packs[k]) &&
             forall j :: 0 <= j < k ==> packs[j].slug != packs[k].slug;
    assert packs'[k] == packs[k] && MadeFrom(c'.skills[i], c'.versions[i], packs'[k]);
  }

  /** From empty tables: each skill and its version carry the contents of the earliest pack with
      the slug; later packs with the same slug leave no trace. */
  lemma {:induction false} SkillsCarryTheirPack(first: nat, agents: seq<Agent>, packs: seq<Pack>, i: nat)
    requires i < |MigrateAll(Catalog([], [], first), agents, packs).skills|
    ensures i < |MigrateAll(Catalog([], [], first), agents, packs).versions|
    ensures FromEarliestPack(MigrateAll(Catalog([], [], first), agents, packs), packs, i)
  {
    var earlier, last := packs[..|packs| - 1], packs[|packs| - 1];
    var c := MigrateAll(Catalog([], [], first), agents, earlier);
    var c' := MigrateAll(Catalog([], [], first), agents, packs);
    BackfillIsTidy(first, agents, earlier);
    assert packs == earlier + [last];
    if i < |c.skills| {
      SkillsCarryTheirPack(first, agents, earlier, i);
      EarliestPackStays(c, earlier, c', packs, i);
    } else {
      var owner := ChosenOwner(agents, last.slug).value;
      SkillsAfter(Catalog([], [], first), agents, earlier, owner, last.slug);
      forall j | 0 <= j < |earlier| ensures packs[j].slug != last.slug {
        assert earlier[j] in earlier;
      }
      assert MadeFrom(c'.skills[i], c'.versions[i], packs[|packs| - 1]);
    }
  }

  // ---------------------------------------------------------------- running it again

  lemma {:induction false} Grows(c: Catalog, agents: seq<Agent>, packs: seq<Pack>)
    ensures |c.skills| <= |MigrateAll(c, agents, packs).skills|
    ensures |MigrateAll(c, agents, packs).skills| == |c.skills| ==> MigrateAll(c, agents, packs) == c
  {
    if packs != [] { Grows(c, agents, packs[..|packs| - 1]); }
  }

  /** A run changes nothing exactly when every pack with a chosen owner is there already. */
  lemma {:induction false} NothingToDo(c: Catalog, agents: seq<Agent>, packs: seq<Pack>)
    ensures MigrateAll(c, agents, packs) == c <==>
            forall k :: 0 <= k < |packs| ==> AlreadyThere(c.skills, agents, packs[k].slug)
  {
    if packs != [] {
      var earlier, last := packs[..|packs| - 1], packs[|packs| - 1];
      NothingToDo(c, agents, earlier);
      Grows(c, agents, earlier);
      assert forall k :: 0 <= k < |earlier| ==> earlier[k] == packs[k];
    }
  }

  predicate AlreadyThere(skills: seq<Skill>, agents: seq<Agent>, slug: string) {
    ChosenOwner(agents, slug).None? || HasSkill(skills, ChosenOwner(agents, slug).value, slug)
  }

  /** A second run over the same packs inserts nothing exactly when, in the order in which it
      sees the agents, it chooses the same owner for every slug (or none at all). */
  lemma SecondRunInsertsNothingExactly(
      first: nat, agents: seq<Agent>, packs: seq<Pack>, agents': seq<Agent>, packs': seq<Pack>)
    requires forall slug :: HasPack(packs', slug) <==> HasPack(packs, slug)
    ensures var c := MigrateAll(Catalog([], [], first), agents, packs);
            MigrateAll(c, agents', packs') == c <==>
            forall k :: 0 <= k < |packs'| ==> SameChoice(agents, agents', packs'[k].slug)
  {
    var empty := Catalog([], [], first);
    var c := MigrateAll(empty, agents, packs);
    NothingToDo(c, agents', packs');
    forall k | 0 <= k < |packs'|
      ensures AlreadyThere(c.skills, agents', packs'[k].slug) <==> SameChoice(agents, agents', packs'[k].slug)
    {
      var slug := packs'[k].slug;
      assert packs'[k] in packs' && HasPack(packs', slug);
      if ChosenOwner(agents', slug).Some? {
        SkillsAfter(empty, agents, packs, ChosenOwner(agents', slug).value, slug);
      }
    }
  }

  predicate SameChoice(agents: seq<Agent>, agents': seq<Agent>, slug: string) {
    ChosenOwner(agents', slug).None? || ChosenOwner(agents', slug) == ChosenOwner(agents, slug)
  }

  // The queries have no ORDER BY.  What makes the choice of an owner independent of the order:

  predicate Named(agents: seq<Agent>, slug: string) { exists a :: a in agents && Names(a, slug) }

  predicate OneOwnerNames(agents: seq<Agent>, slug: string) {
    forall a, b :: a in agents && b in agents && Names(a, slug) && Names(b, slug) ==> a.owner == b.owner
  }

  /** Nobody has more agents. */
  predicate Top(agents: seq<Agent>, owner: nat) {
    forall a :: a in agents ==> AgentCount(agents, a.owner) <= AgentCount(agents, owner)
  }

  predicate ClearModal(agents: seq<Agent>) {
    forall a, b :: a in agents && b in agents && Top(agents, a.owner) && Top(agents, b.owner) ==> a.owner == b.owner
  }

  /** All agents that name the slug have one owner; or none names it and one owner alone has the
      most agents (or there are no agents). */
  predicate OrderFree(agents: seq<Agent>, slug: string) {
    if Named(agents, slug) then OneOwnerNames(agents, slug) else ClearModal(agents)
  }

  lemma {:induction false} AgentCountConcat(xs: seq<Agent>, ys: seq<Agent>, owner: nat)
    ensures AgentCount(xs + ys, owner) == AgentCount(xs, owner) + AgentCount(ys, owner)
  {
    if ys == [] {
      assert xs + ys == xs;
    } else {
      assert (xs + ys)[..|xs + ys| - 1] == xs + ys[..|ys| - 1];
      AgentCountConcat(xs, ys[..|ys| - 1], owner);
    }
  }

  function Without(xs: seq<Agent>, i: nat): seq<Agent>
    requires i < |xs|
  {
    xs[..i] + xs[i + 1..]
  }

  lemma WithoutOne(xs: seq<Agent>, i: nat, owner: nat)
    requires i < |xs|
    ensures multiset(Without(xs, i)) == multiset(xs) - multiset{xs[i]}
    ensures multiset([xs[i]] + Without(xs, i)) == multiset(xs)
    ensures AgentCount(xs, owner) == AgentCount(Without(xs, i), owner) + if xs[i].owner == owner then 1 else 0
  {
    assert xs == xs[..i] + ([xs[i]] + xs[i + 1..]);
    AgentCountConcat(xs[..i], [xs[i]] + xs[i + 1..], owner);
    AgentCountConcat([xs[i]], xs[i + 1..], owner);
    AgentCountConcat(xs[..i], xs[i + 1..], owner);
    assert [xs[i]][..0] == [];
  }

  lemma {:induction false} AgentCountPermuted(xs: seq<Agent>, ys: seq<Agent>, owner: nat)
    requires multiset(xs) == multiset(ys)
    ensures AgentCount(xs, owner) == AgentCount(ys, owner)
  {
    if xs == [] {
      assert ys == [] by { assert |multiset(ys)| == |ys|; }
    } else {
      var n := |xs| - 1;
      assert xs[n] in multiset(ys);
      var i :| 0 <= i < |ys| && ys[i] == xs[n];
      WithoutOne(ys, i, owner);
      WithoutOne(xs, n, owner);
      assert Without(xs, n) == xs[..n];
      AgentCountPermuted(xs[..n], Without(ys, i), owner);
    }
  }

  lemma SameAgents(xs: seq<Agent>, ys: seq<Agent>)
    requires multiset(xs) == multiset(ys)
    ensures forall a :: a in xs <==> a in ys
  {
    assert forall a :: a in xs <==> a in multiset(xs);
    assert forall a :: a in ys <==> a in multiset(ys);
  }

  lemma TopPermuted(xs: seq<Agent>, ys: seq<Agent>, owner: nat)
    requires multiset(xs) == multiset(ys) && Top(xs, owner)
    ensures Top(ys, owner)
  {
    SameAgents(xs, ys);
    AgentCountPermuted(xs, ys, owner);
    forall a | a in ys ensures AgentCount(ys, a.owner) <= AgentCount(ys, owner) {
      AgentCountPermuted(xs, ys, a.owner);
    }
  }

  lemma ChosenIsNaming(agents: seq<Agent>, slug: string)
    requires Named(agents, slug)
    ensures ChosenOwner(agents, slug).Some?
    ensures exists a :: a in agents && Names(a, slug) && Some(a.owner) == ChosenOwner(agents, slug)
  {
    ReferencingStartsWithEarliest(agents, slug);
    var a :| a in agents && Names(a, slug);
    var k :| 0 <= k < |agents| && agents[k] == a;
    var i :| Earliest(agents, slug, i) && agents[i].owner == Referencing(agents, slug)[0];
    assert agents[i] in agents;
  }

  lemma ChosenIsModal(agents: seq<Agent>, slug: string)
    requires !Named(agents, slug)
    ensures ChosenOwner(agents, slug) == Modal(agents)
  {
    ReferencingStartsWithEarliest(agents, slug);
    if i :| Earliest(agents, slug, i) { assert agents[i] in agents; }
  }

  lemma OrderFreeSameChoice(xs: seq<Agent>, ys: seq<Agent>, slug: string)
    requires multiset(xs) == multiset(ys) && OrderFree(xs, slug)
    ensures ChosenOwner(ys, slug) == ChosenOwner(xs, slug)
  {
    SameAgents(xs, ys);
    if Named(xs, slug) {
      assert Named(ys, slug);
      ChosenIsNaming(xs, slug);
      ChosenIsNaming(ys, slug);
    } else {
      assert !Named(ys, slug);
      ChosenIsModal(xs, slug);
      ChosenIsModal(ys, slug);
      ModalIsMaximal(xs);
      ModalIsMaximal(ys);
      if xs != [] {
        assert xs[0] in ys;
        TopPermuted(ys, xs, Modal(ys).value);
      } else {
        assert ys == [] by { assert |multiset(ys)| == |ys|; }
      }
    }
  }

  // The other way round: bring another agent to the front.

  lemma {:induction false} FirstOwner(agents: seq<Agent>)
    requires agents != []
    ensures Owners(agents) != [] && Owners(agents)[0] == agents[0].owner
  {
    if |agents| == 1 {
      assert agents[..0] == [];
    } else {
      FirstOwner(agents[..|agents| - 1]);
    }
  }

  lemma {:induction false} FirstTopWins(agents: seq<Agent>, owners: seq<nat>)
    requires owners != [] && forall o :: o in owners ==> AgentCount(agents, o) <= AgentCount(agents, owners[0])
    ensures MostAgents(agents, owners) == Some(owners[0])
  {
    if |owners| == 1 {
      assert owners[..0] == [];
    } else {
      assert owners == owners[..|owners| - 1] + [owners[|owners| - 1]];
      FirstTopWins(agents, owners[..|owners| - 1]);
    }
  }

  lemma FrontTopIsModal(agents: seq<Agent>)
    requires agents != [] && Top(agents, agents[0].owner)
    ensures Modal(agents) == Some(agents[0].owner)
  {
    FirstOwner(agents);
    OwnersAreAll(agents);
    FirstTopWins(agents, Owners(agents));
  }

  lemma FrontNamerIsChosen(agents: seq<Agent>, slug: string)
    requires agents != [] && Names(agents[0], slug)
    ensures ChosenOwner(agents, slug) == Some(agents[0].owner)
  {
    ReferencingStartsWithEarliest(agents, slug);
  }

  /** Some order chooses another owner. */
  lemma OtherChoice(agents: seq<Agent>, slug: string) returns (agents': seq<Agent>)
    requires !OrderFree(agents, slug)
    ensures multiset(agents') == multiset(agents)
    ensures ChosenOwner(agents', slug).Some? && ChosenOwner(agents', slug) != ChosenOwner(agents, slug)
  {
    if Named(agents, slug) {
      var a, b :| a in agents && b in agents && Names(a, slug) && Names(b, slug) && a.owner != b.owner;
      agents' := ToFront(agents, if ChosenOwner(agents, slug) == Some(a.owner) then b else a);
      FrontNamerIsChosen(agents', slug);
    } else {
      var a, b :| a in agents && b in agents && Top(agents, a.owner) && Top(agents, b.owner) && a.owner != b.owner;
      agents' := ToFront(agents, if Modal(agents) == Some(a.owner) then b else a);
      SameAgents(agents, agents');
      TopPermuted(agents, agents', agents'[0].owner);
      FrontTopIsModal(agents');
      ChosenIsModal(agents, slug);
      ChosenIsModal(agents', slug);
    }
  }

  lemma ToFront(agents: seq<Agent>, a: Agent) returns (agents': seq<Agent>)
    requires a in agents
    ensures multiset(agents') == multiset(agents) && agents' != [] && agents'[0] == a
  {
    var i :| 0 <= i < |agents| && agents[i] == a;
    agents' := [a] + Without(agents, i);
    WithoutOne(agents, i, 0);
  }

  lemma SamePacks(packs: seq<Pack>, packs': seq<Pack>)
    requires multiset(packs') == multiset(packs)
    ensures forall slug :: HasPack(packs', slug) <==> HasPack(packs, slug)
  {
    assert forall p: Pack :: p in packs' <==> p in multiset(packs');
    assert forall p: Pack :: p in packs <==> p in multiset(packs);
  }

  /** A second run inserts nothing in whatever order it sees agents and packs. */
  ghost predicate Idempotent(first: nat, agents: seq<Agent>, packs: seq<Pack>) {
    var c := MigrateAll(Catalog([], [], first), agents, packs);
    forall agents': seq<Agent>, packs': seq<Pack> :: multiset(agents') == multiset(agents) && multiset(packs') == multiset(packs) ==>
      MigrateAll(c, agents', packs') == c
  }

  /** The backfill is idempotent exactly when for every pack all agents that name its slug have one
      owner, or none names it and the owner with the most agents is unique. */
  lemma IdempotentExactly(first: nat, agents: seq<Agent>, packs: seq<Pack>)
    ensures Idempotent(first, agents, packs) <==> forall p: Pack :: p in packs ==> OrderFree(agents, p.slug)
  {
    var c := MigrateAll(Catalog([], [], first), agents, packs);
    if forall p: Pack :: p in packs ==> OrderFree(agents, p.slug) {
      forall agents': seq<Agent>, packs': seq<Pack> | multiset(agents') == multiset(agents) && multiset(packs') == multiset(packs)
        ensures MigrateAll(c, agents', packs') == c
      {
        SamePacks(packs, packs');
        SecondRunInsertsNothingExactly(first, agents, packs, agents', packs');
        forall k | 0 <= k < |packs'| ensures SameChoice(agents, agents', packs'[k].slug) {
          assert packs'[k] in multiset(packs');
          assert packs'[k] in packs;
          OrderFreeSameChoice(agents, agents', packs'[k].slug);
        }
      }
    } else {
      var p :| p in packs && !OrderFree(agents, p.slug);
      var agents' := OtherChoice(agents, p.slug);
      SecondRunInsertsNothingExactly(first, agents, packs, agents', packs);
      var k :| 0 <= k < |packs| && packs[k] == p;
      assert !SameChoice(agents, agents', packs[k].slug);
      assert MigrateAll(c, agents', packs) != c;
    }
  }

  /** In the same order of agents a second run inserts nothing, even with the packs reordered. */
  lemma SecondRunSameOrder(first: nat, agents: seq<Agent>, packs: seq<Pack>, packs': seq<Pack>)
    requires multiset(packs') == multiset(packs)
    ensures var c := MigrateAll(Catalog([], [], first), agents, packs); MigrateAll(c, agents, packs') == c
  {
    SamePacks(packs, packs');
    SecondRunInsertsNothingExactly(first, agents, packs, agents, packs');
  }

  /** Two owners whose agents name the same slug: seen in the other order, a second run inserts a
      second skill for the slug. */
  lemma ReorderedRunDuplicates(first: nat, pack: Pack)
    ensures var a, b := Agent(1, 10, Some([pack.slug])), Agent(2, 20, Some([pack.slug]));
            var c := MigrateAll(Catalog([], [], first), [a, b], [pack]);
            var c' := MigrateAll(c, [b, a], [pack]);
            HasSkill(c'.skills, 10, pack.slug) && HasSkill(c'.skills, 20, pack.slug) && |c.skills| == 1 && |c'.skills| == 2
  {
    var a, b := Agent(1, 10, Some([pack.slug])), Agent(2, 20, Some([pack.slug]));
    FirstOwnerOf(a, b, pack.slug);
    FirstOwnerOf(b, a, pack.slug);
    var empty := Catalog([], [], first);
    OnePack(empty, [a, b], pack);
    var c := MigrateAll(empty, [a, b], [pack]);
    OnePack(c, [b, a], pack);
    SkillsAfter(c, [b, a], [pack], 10, pack.slug);
    SkillsAfter(c, [b, a], [pack], 20, pack.slug);
    assert pack in [pack];
    assert c.skills[0].owner == 10;
  }

  lemma FirstOwnerOf(a: Agent, b: Agent, slug: string)
    requires Names(a, slug)
    ensures ChosenOwner([a, b], slug) == Some(a.owner)
  {
    assert [a, b][..1] == [a];
    assert Referencing([a], slug) == [a.owner];
  }

  lemma OnePack(c: Catalog, agents: seq<Agent>, p: Pack)
    ensures MigrateAll(c, agents, [p]) == Migrate(c, agents, p)
  {
    assert [p][..0] == [];
    assert MigrateAll(c, agents, []) == c;
  }

  // ---------------------------------------------------------------- assignments

  /** One slug in the list of one agent. */
  datatype Request = Request(agent: nat, owner: nat, slug: string)

  function RequestsOf(a: Agent, n: nat): seq<Request>
    requires a.skills.Some? && n <= |a.skills.value|
  {
    if n == 0 then [] else RequestsOf(a, n - 1) + [Request(a.id, a.owner, a.skills.value[n - 1])]
  }

  function Requests(agents: seq<Agent>): seq<Request> {
    if agents == [] then []
    else
      var a := agents[|agents| - 1];
      Requests(agents[..|agents| - 1]) + if a.skills.Some? then RequestsOf(a, |a.skills.value|) else []
  }

  /** The first skill with the slug, of the given owner if one is given. */
  function FindSkill(skills: seq<Skill>, slug: string, owner: Option<nat>): Option<nat> {
    if skills == [] then None
    else if skills[0].slug == slug && (owner.None? || owner.value == skills[0].owner) then Some(skills[0].id)
    else FindSkill(skills[1..], slug, owner)
  }

  function Resolve(skills: seq<Skill>, r: Request): Option<nat> {
    var own := FindSkill(skills, r.slug, Some(r.owner));
    if own.Some? then own else FindSkill(skills, r.slug, None)
  }

  datatype Ledger = Ledger(rows: seq<Assignment>, next: nat)

  predicate Assigned(rows: seq<Assignment>, agent: nat, skill: nat) {
    exists i :: 0 <= i < |rows| && rows[i].agent == agent && rows[i].skill == skill
  }

  function Assign(l: Ledger, skills: seq<Skill>, r: Request): Ledger {
    match Resolve(skills, r)
    case None => l
    case Some(skill) =>
      if Assigned(l.rows, r.agent, skill) then l
      else Ledger(l.rows + [Assignment(l.next, r.agent, skill)], l.next + 1)
  }

  function AssignAll(l: Ledger, skills: seq<Skill>, rs: seq<Request>): Ledger {
    if rs == [] then l else Assign(AssignAll(l, skills, rs[..|rs| - 1]), skills, rs[|rs| - 1])
  }

  lemma {:induction false} AssignInTwo(l: Ledger, skills: seq<Skill>, rs: seq<Request>, more: seq<Request>)
    ensures AssignAll(l, skills, rs + more) == AssignAll(AssignAll(l, skills, rs), skills, more)
  {
    if more == [] {
      assert rs + more == rs;
    } else {
      assert (rs + more)[..|rs + more| - 1] == rs + more[..|more| - 1];
      AssignInTwo(l, skills, rs, more[..|more| - 1]);
    }
  }

  lemma AssignNext(l: Ledger, skills: seq<Skill>, a: Agent, k: nat)
    requires a.skills.Some? && k < |a.skills.value|
    ensures AssignAll(l, skills, RequestsOf(a, k + 1)) ==
            Assign(AssignAll(l, skills, RequestsOf(a, k)), skills, Request(a.id, a.owner, a.skills.value[k]))
  {
    var more := RequestsOf(a, k + 1);
    assert more[..|more| - 1] == RequestsOf(a, k);
  }

  /** The requests are exactly the slugs the agents name. */
  lemma {:induction false} RequestsAreNames(agents: seq<Agent>, r: Request)
    ensures r in Requests(agents) <==> exists a :: a in agents && a.id == r.agent && a.owner == r.owner && Names(a, r.slug)
  {
    if agents != [] {
      var earlier, last := agents[..|agents| - 1], agents[|agents| - 1];
      assert agents == earlier + [last];
      RequestsAreNames(earlier, r);
      if last.skills.Some? { RequestsOfAreNames(last, |last.skills.value|, r); }
      assert last in agents;
      if r in Requests(earlier) {
        var a :| a in earlier && a.id == r.agent && a.owner == r.owner && Names(a, r.slug);
        assert a in agents;
      }
    }
  }

  lemma {:induction false} RequestsOfAreNames(a: Agent, n: nat, r: Request)
    requires a.skills.Some? && n <= |a.skills.value|
    ensures r in RequestsOf(a, n) <==> a.id == r.agent && a.owner == r.owner && r.slug in a.skills.value[..n]
  {
    if n > 0 {
      RequestsOfAreNames(a, n - 1, r);
      assert a.skills.value[..n] == a.skills.value[..n - 1] + [a.skills.value[n - 1]];
    }
  }

  ghost predicate OneSkillPerSlug(skills: seq<Skill>) {
    forall i, j :: 0 <= i < j < |skills| ==> skills[i].slug != skills[j].slug
  }

  /** A lookup finds a matching skill exactly when there is one. */
  lemma {:induction false} FindSkillFinds(skills: seq<Skill>, slug: string, owner: Option<nat>)
    ensures match FindSkill(skills, slug, owner)
            case None => forall s :: s in skills && s.slug == slug ==> owner.Some? && s.owner != owner.value
            case Some(id) => exists s :: s in skills && s.slug == slug && s.id == id && (owner.None? || owner.value == s.owner)
  {
    if skills != [] {
      assert skills == [skills[0]] + skills[1..];
      FindSkillFinds(skills[1..], slug, owner);
      if skills[0].slug == slug && (owner.None? || owner.value == skills[0].owner) {
        assert skills[0] in skills;
      } else if FindSkill(skills[1..], slug, owner).Some? {
        var s :| s in skills[1..] && s.slug == slug && s.id == FindSkill(skills[1..], slug, owner).value &&
                 (owner.None? || owner.value == s.owner);
        assert s in skills;
      }
    }
  }

  /** The agent's owner's own skill comes first; otherwise any skill with the slug will do. */
  lemma ResolvePrefersOwn(skills: seq<Skill>, r: Request)
    ensures Resolve(skills, r).Some? <==> exists s :: s in skills && s.slug == r.slug
    ensures Resolve(skills, r).Some? ==> exists s :: s in skills && s.slug == r.slug && s.id == Resolve(skills, r).value
    ensures (exists s :: s in skills && s.slug == r.slug && s.owner == r.owner) ==>
              exists s :: s in skills && s.slug == r.slug && s.owner == r.owner && s.id == Resolve(skills, r).value
  {
    FindSkillFinds(skills, r.slug, Some(r.owner));
    FindSkillFinds(skills, r.slug, None);
  }

  /** With one skill a slug there is nothing to choose. */
  lemma ResolveIsTheSkill(skills: seq<Skill>, r: Request, s: Skill)
    requires OneSkillPerSlug(skills) && s in skills && s.slug == r.slug
    ensures Resolve(skills, r) == Some(s.id)
  {
    ResolvePrefersOwn(skills, r);
    var v :| v in skills && v.slug == r.slug && v.id == Resolve(skills, r).value;
    var i :| 0 <= i < |skills| && skills[i] == s;
    var j :| 0 <= j < |skills| && skills[j] == v;
    assert i == j;
  }

  predicate Wanted(skills: seq<Skill>, rs: seq<Request>, agent: nat, skill: nat) {
    exists k :: 0 <= k < |rs| && rs[k].agent == agent && Resolve(skills, rs[k]) == Some(skill)
  }

  lemma WantedSplit(skills: seq<Skill>, rs: seq<Request>, agent: nat, skill: nat)
    requires rs != []
    ensures Wanted(skills, rs, agent, skill) <==>
            || Wanted(skills, rs[..|rs| - 1], agent, skill)
            || (rs[|rs| - 1].agent == agent && Resolve(skills, rs[|rs| - 1]) == Some(skill))
  {
    var earlier := rs[..|rs| - 1];
    if Wanted(skills, earlier, agent, skill) {
      var k :| 0 <= k < |earlier| && earlier[k].agent == agent && Resolve(skills, earlier[k]) == Some(skill);
      assert rs[k] == earlier[k];
    }
    if Wanted(skills, rs, agent, skill) {
      var k :| 0 <= k < |rs| && rs[k].agent == agent && Resolve(skills, rs[k]) == Some(skill);
      if k < |earlier| { assert earlier[k] == rs[k]; }
    }
  }

  lemma AssignAdds(l: Ledger, skills: seq<Skill>, r: Request, agent: nat, skill: nat)
    ensures Assigned(Assign(l, skills, r).rows, agent, skill) <==>
            Assigned(l.rows, agent, skill) || (r.agent == agent && Resolve(skills, r) == Some(skill))
  {
    var l' := Assign(l, skills, r);
    if l' != l {
      assert l'.rows[|l.rows|] == Assignment(l.next, r.agent, Resolve(skills, r).value);
      if Assigned(l.rows, agent, skill) {
        var i :| 0 <= i < |l.rows| && l.rows[i].agent == agent && l.rows[i].skill == skill;
        assert l'.rows[i] == l.rows[i];
      }
    }
  }

  /** An agent is assigned exactly the skills its slugs resolve to, beside what it had. */
  lemma {:induction false} AssignedAfter(l: Ledger, skills: seq<Skill>, rs: seq<Request>, agent: nat, skill: nat)
    ensures Assigned(AssignAll(l, skills, rs).rows, agent, skill) <==>
            Assigned(l.rows, agent, skill) || Wanted(skills, rs, agent, skill)
  {
    if rs != [] {
      AssignedAfter(l, skills, rs[..|rs| - 1], agent, skill);
      WantedSplit(skills, rs, agent, skill);
      AssignAdds(AssignAll(l, skills, rs[..|rs| - 1]), skills, rs[|rs| - 1], agent, skill);
    }
  }

  ghost predicate NoDuplicates(rows: seq<Assignment>) {
    forall i, j :: 0 <= i < j < |rows| ==> rows[i].agent != rows[j].agent || rows[i].skill != rows[j].skill
  }

  lemma {:induction false} AssignmentsStayUnique(l: Ledger, skills: seq<Skill>, rs: seq<Request>)
    requires NoDuplicates(l.rows)
    ensures NoDuplicates(AssignAll(l, skills, rs).rows)
  {
    if rs != [] { AssignmentsStayUnique(l, skills, rs[..|rs| - 1]); }
  }

  /** Every row has an identifier of its own, and the next one is new. */
  ghost predicate IdsFresh(l: Ledger) {
    && (forall i :: 0 <= i < |l.rows| ==> l.rows[i].id < l.next)
    && (forall i, j :: 0 <= i < j < |l.rows| ==> l.rows[i].id != l.rows[j].id)
  }

  lemma {:induction false} IdsStayFresh(l: Ledger, skills: seq<Skill>, rs: seq<Request>)
    requires IdsFresh(l)
    ensures IdsFresh(AssignAll(l, skills, rs)) && l.rows <= AssignAll(l, skills, rs).rows
  {
    if rs != [] { IdsStayFresh(l, skills, rs[..|rs| - 1]); }
  }

  /** A run changes nothing when everything wanted is assigned. */
  lemma {:induction false} NothingToAssign(l: Ledger, skills: seq<Skill>, rs: seq<Request>)
    requires forall k :: 0 <= k < |rs| ==> Resolve(skills, rs[k]).None? || Assigned(l.rows, rs[k].agent, Resolve(skills, rs[k]).value)
    ensures AssignAll(l, skills, rs) == l
  {
    if rs != [] {
      var earlier := rs[..|rs| - 1];
      assert forall k :: 0 <= k < |earlier| ==> earlier[k] == rs[k];
      NothingToAssign(l, skills, earlier);
    }
  }

  // ---------------------------------------------------------------- both parts together

  /** From empty tables: for every agent and every slug it names, there is exactly one assignment
      to a skill with that slug if the slug has a skill, and none otherwise. */
  lemma ExactlyOneAssignment(
      first: nat, agents: seq<Agent>, packs: seq<Pack>, agent: Agent, slug: string, skill: Skill)
    requires agent in agents && Names(agent, slug)
    requires skill in MigrateAll(Catalog([], [], first), agents, packs).skills && skill.slug == slug
    ensures var c := MigrateAll(Catalog([], [], first), agents, packs);
            var l := AssignAll(Ledger([], c.next), c.skills, Requests(agents));
            && Assigned(l.rows, agent.id, skill.id) && NoDuplicates(l.rows)
            && forall s :: s in c.skills && s.slug == slug ==> s == skill
  {
    var c := MigrateAll(Catalog([], [], first), agents, packs);
    var rs := Requests(agents);
    BackfillIsTidy(first, agents, packs);
    var r := Request(agent.id, agent.owner, slug);
    RequestsAreNames(agents, r);
    var k :| 0 <= k < |rs| && rs[k] == r;
    ResolveIsTheSkill(c.skills, r, skill);
    assert Wanted(c.skills, rs, agent.id, skill.id);
    AssignedAfter(Ledger([], c.next), c.skills, rs, agent.id, skill.id);
    AssignmentsStayUnique(Ledger([], c.next), c.skills, rs);
  }

  /** No other assignment exists: each one is of an agent that names the slug of its skill. */
  lemma OnlyNamedAssignments(first: nat, agents: seq<Agent>, packs: seq<Pack>, row: Assignment)
    requires var c := MigrateAll(Catalog([], [], first), agents, packs);
             row in AssignAll(Ledger([], c.next), c.skills, Requests(agents)).rows
    ensures var c := MigrateAll(Catalog([], [], first), agents, packs);
            exists a, s :: a in agents && s in c.skills && a.id == row.agent && s.id == row.skill && Names(a, s.slug)
  {
    var c := MigrateAll(Catalog([], [], first), agents, packs);
    var rs := Requests(agents);
    AssignedAfter(Ledger([], c.next), c.skills, rs, row.agent, row.skill);
    assert Wanted(c.skills, rs, row.agent, row.skill);
    var k :| 0 <= k < |rs| && rs[k].agent == row.agent && Resolve(c.skills, rs[k]) == Some(row.skill);
    RequestsAreNames(agents, rs[k]);
    assert rs[k] in rs;
    var a :| a in agents && a.id == rs[k].agent && a.owner == rs[k].owner && Names(a, rs[k].slug);
    ResolvePrefersOwn(c.skills, rs[k]);
    var s :| s in c.skills && s.slug == rs[k].slug && s.id == row.skill;
  }

  /** Once the skills are there, a second assignment run inserts nothing, in any order. */
  lemma SecondAssignmentRun(l: Ledger, skills: seq<Skill>, agents: seq<Agent>, agents': seq<Agent>)
    requires forall a :: a in agents' ==> a in agents
    ensures var l' := AssignAll(l, skills, Requests(agents)); AssignAll(l', skills, Requests(agents')) == l'
  {
    var l' := AssignAll(l, skills, Requests(agents));
    var rs, rs' := Requests(agents), Requests(agents');
    forall k | 0 <= k < |rs'| && Resolve(skills, rs'[k]).Some?
      ensures Assigned(l'.rows, rs'[k].agent, Resolve(skills, rs'[k]).value)
    {
      assert rs'[k] in rs';
      RequestsAreNames(agents', rs'[k]);
      RequestsAreNames(agents, rs'[k]);
      var j :| 0 <= j < |rs| && rs[j] == rs'[k];
      assert Wanted(skills, rs, rs'[k].agent, Resolve(skills, rs'[k]).value);
      AssignedAfter(l, skills, rs, rs'[k].agent, Resolve(skills, rs'[k]).value);
    }
    NothingToAssign(l', skills, rs');
  }

  // ---------------------------------------------------------------- the migration

  class Database {
    var userCount: nat
    var agents: seq<Agent>
    var packs: seq<Pack>
    var skills: seq<Skill>
    var versions: seq<Version>
    var assignments: seq<Assignment>
    var next: nat

    ghost function TheCatalog(): Catalog
      reads this
    {
      Catalog(skills, versions, next)
    }

    constructor (userCount: nat, agents: seq<Agent>, packs: seq<Pack>)
      ensures this.userCount == userCount && this.agents == agents && this.packs == packs
      ensures skills == [] && versions == [] && assignments == [] && next == 0
    {
      this.userCount, this.agents, this.packs := userCount, agents, packs;
      skills, versions, assignments, next := [], [], [], 0;
    }

    /** The first loop: who references which slug, and how many agents each owner has. */
    method ScanAgents() returns (slugOwners: map<string, seq<nat>>, counts: map<nat, nat>, order: seq<nat>)
      ensures ReferencesOk(slugOwners, agents) && CountsOk(counts, order, agents)
    {
      slugOwners, counts, order := map[], map[], [];
      var i := 0;
      while i < |agents|
        invariant i <= |agents|
        invariant ReferencesOk(slugOwners, agents[..i]) && CountsOk(counts, order, agents[..i])
      {
        var a := agents[i];
        counts, order := CountAgent(counts, order, agents[..i], a);
        slugOwners := ReferToSlugs(slugOwners, agents[..i], a);
        assert agents[..i] + [a] == agents[..i + 1];
        i := i + 1;
      }
      assert agents[..i] == agents;
    }

    /** The first key with the largest count. */
    method LargestCount(counts: map<nat, nat>, order: seq<nat>) returns (modal: Option<nat>)
      requires CountsOk(counts, order, agents)
      ensures modal == Modal(agents)
    {
      modal := None;
      var i := 0;
      while i < |order|
        invariant i <= |order| && modal == MostAgents(agents, order[..i])
        invariant modal.Some? ==> modal.value in order
      {
        assert order[..i + 1][..i] == order[..i];
        if modal.None? || counts[order[i]] > counts[modal.value] { modal := Some(order[i]); }
        i := i + 1;
      }
      assert order[..i] == order;
    }

    /** One pack: choose the owner, skip without one or if the skill exists, else insert. */
    method MigratePack(slugOwners: map<string, seq<nat>>, modal: Option<nat>, p: Pack)
      requires Lookup(slugOwners, p.slug) == Referencing(agents, p.slug) && modal == Modal(agents)
      modifies this`skills, this`versions, this`next
      ensures TheCatalog() == Migrate(old(TheCatalog()), agents, p)
    {
      var owner := modal;
      if p.slug in slugOwners && slugOwners[p.slug] != [] { owner := Some(slugOwners[p.slug][0]); }
      if owner.Some? && !HasSkill(skills, owner.value, p.slug) {
        InsertSkill(p, owner.value);
      }
    }

    /** Skills and versions from the packs; nothing happens without users. */
    method BackfillSkills()
      modifies this`skills, this`versions, this`next
      ensures TheCatalog() == if userCount == 0 then old(TheCatalog()) else MigrateAll(old(TheCatalog()), agents, packs)
    {
      if userCount == 0 { return; }
      var slugOwners, counts, order := ScanAgents();
      var modal := LargestCount(counts, order);
      var i := 0;
      while i < |packs|
        invariant i <= |packs|
        invariant TheCatalog() == MigrateAll(old(TheCatalog()), agents, packs[..i])
      {
        assert packs[..i + 1][..i] == packs[..i];
        assert Lookup(slugOwners, packs[i].slug) == Referencing(agents, packs[i].slug);
        MigratePack(slugOwners, modal, packs[i]);
        i := i + 1;
      }
      assert packs[..i] == packs;
    }

    /** Insert the skill without a version, insert version 1, then point the skill at it. */
    method InsertSkill(p: Pack, owner: nat)
      modifies this`skills, this`versions, this`next
      ensures skills == old(skills) + [NewSkill(old(TheCatalog()), p, owner)]
      ensures versions == old(versions) + [NewVersion(old(TheCatalog()), p)]
      ensures next == old(next) + 2
    {
      var skillId, versionId := next, next + 1;
      next := next + 2;
      var at := |skills|;
      skills := skills + [Skill(skillId, owner, p.slug, p.name, OrEmpty(p.description), p.id, None)];
      versions := versions + [Version(versionId, skillId, 1, OrEmpty(p.description), OrEmpty(p.rules),
                                       OrList(p.capabilities), OrList(p.tools), true)];
      skills := skills[at := skills[at].(current := Some(versionId))];
    }

    /** One slug of one agent: its owner's skill first, then any; insert the assignment if missing. */
    method AssignSlug(agent: nat, owner: nat, slug: string)
      modifies this`assignments, this`next
      ensures Ledger(assignments, next) == Assign(Ledger(old(assignments), old(next)), skills, Request(agent, owner, slug))
    {
      var skill := FindSkill(skills, slug, Some(owner));
      if skill.None? { skill := FindSkill(skills, slug, None); }
      if skill.Some? && !Assigned(assignments, agent, skill.value) {
        assignments, next := assignments + [Assignment(next, agent, skill.value)], next + 1;
      }
    }

    /** The inner loop over one agent's list. */
    method AssignAgent(a: Agent)
      requires a.skills.Some?
      modifies this`assignments, this`next
      ensures Ledger(assignments, next) ==
              AssignAll(Ledger(old(assignments), old(next)), skills, RequestsOf(a, |a.skills.value|))
    {
      ghost var start := Ledger(assignments, next);
      var k := 0;
      while k < |a.skills.value|
        invariant k <= |a.skills.value|
        invariant Ledger(assignments, next) == AssignAll(start, skills, RequestsOf(a, k))
      {
        AssignNext(start, skills, a, k);
        AssignSlug(a.id, a.owner, a.skills.value[k]);
        k := k + 1;
      }
    }

    /** Assignments from the agents' lists. */
    method BackfillAssignments()
      modifies this`assignments, this`next
      ensures Ledger(assignments, next) == AssignAll(Ledger(old(assignments), old(next)), skills, Requests(agents))
    {
      ghost var start := Ledger(assignments, next);
      var i := 0;
      while i < |agents|
        invariant i <= |agents|
        invariant Ledger(assignments, next) == AssignAll(start, skills, Requests(agents[..i]))
      {
        var a := agents[i];
        assert agents[..i + 1][..i] == agents[..i];
        if a.skills.Some? {
          AssignAgent(a);
          AssignInTwo(start, skills, Requests(agents[..i]), RequestsOf(a, |a.skills.value|));
        } else {
          assert Requests(agents[..i]) + [] == Requests(agents[..i]);
        }
        i := i + 1;
      }
      assert agents[..i] == agents;
    }

    method Upgrade()
      modifies this`skills, this`versions, this`assignments, this`next
      ensures var c := if userCount == 0 then old(TheCatalog()) else MigrateAll(old(TheCatalog()), agents, packs);
              && skills == c.skills && versions == c.versions
              && Ledger(assignments, next) == AssignAll(Ledger(old(assignments), c.next), c.skills, Requests(agents))
    {
      BackfillSkills();
      BackfillAssignments();
    }
  }

  function Lookup(m: map<string, seq<nat>>, slug: string): seq<nat> { if slug in m then m[slug] else [] }

  ghost predicate ReferencesOk(m: map<string, seq<nat>>, rows: seq<Agent>) {
    forall slug :: Lookup(m, slug) == Referencing(rows, slug)
  }

  function CountOf(counts: map<nat, nat>, owner: nat): nat { if owner in counts then counts[owner] else 0 }

  /** The counting dictionary: its keys in insertion order, and its values. */
  ghost predicate CountsOk(counts: map<nat, nat>, order: seq<nat>, rows: seq<Agent>) {
    && order == Owners(rows)
    && (forall o :: o in order <==> o in counts)
    && (forall o :: CountOf(counts, o) == AgentCount(rows, o))
  }

  method CountAgent(counts: map<nat, nat>, order: seq<nat>, ghost rows: seq<Agent>, a: Agent)
      returns (counts': map<nat, nat>, order': seq<nat>)
    requires CountsOk(counts, order, rows)
    ensures CountsOk(counts', order', rows + [a])
  {
    assert (rows + [a])[..|rows|] == rows;
    order' := if a.owner in counts then order else order + [a.owner];
    counts' := counts[a.owner := CountOf(counts, a.owner) + 1];
    forall o ensures CountOf(counts', o) == AgentCount(rows + [a], o) {
      assert CountOf(counts, o) == AgentCount(rows, o);
    }
  }

  method ReferToSlugs(m: map<string, seq<nat>>, ghost rows: seq<Agent>, a: Agent) returns (r: map<string, seq<nat>>)
    requires ReferencesOk(m, rows)
    ensures ReferencesOk(r, rows + [a])
  {
    r := m;
    assert (rows + [a])[..|rows|] == rows;
    if a.skills.Some? { r := AddReferences(m, a.owner, a.skills.value); }
    forall slug ensures Lookup(r, slug) == Referencing(rows + [a], slug) {
      assert Lookup(m, slug) == Referencing(rows, slug);
    }
  }

  /** The inner loop over one agent's list. */
  method AddReferences(m: map<string, seq<nat>>, owner: nat, slugs: seq<string>) returns (r: map<string, seq<nat>>)
    ensures forall slug :: Lookup(r, slug) ==
              if slug in slugs && owner !in Lookup(m, slug) then Lookup(m, slug) + [owner] else Lookup(m, slug)
  {
    r := m;
    var k := 0;
    while k < |slugs|
      invariant k <= |slugs|
      invariant forall slug :: Lookup(r, slug) ==
                  if slug in slugs[..k] && owner !in Lookup(m, slug) then Lookup(m, slug) + [owner] else Lookup(m, slug)
    {
      var slug := slugs[k];
      assert slugs[..k + 1] == slugs[..k] + [slug];
      if slug !in r { r := r[slug := []]; }
      if owner !in r[slug] { r := r[slug := r[slug] + [owner]]; }
      k := k + 1;
    }
    assert slugs[..k] == slugs;
  }
}
