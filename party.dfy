/** The party coordinator: a leader, an ordered member list, the members' back-references,
    the world's registry of parties, and the packets it sends out. */
module Parties {
  import opened Seqs
  import opened ExpShare

  /** A member's line in a roster: player id, leader flag, level, the hit points the
      hp-percent byte is computed from, and name. */
  datatype MemberInfo = MemberInfo(id: int, isLeader: bool, level: Byte, hp: Short, maxhp: Short, name: string)

  /** The party packets and the party chat packet, by content and not by wire format. */
  datatype Payload =
    | Roster(entries: seq<MemberInfo>)               // PARTY_CREATE: the full member list
    | Add(info: MemberInfo)                          // PARTY_ADD: one member joined
    | Remove(id: int)                                // PARTY_REMOVE: one member left
    | Close                                          // PARTY_CLOSE: the party is closed for the recipient
    | Agree(id: int, hp: Short, maxhp: Short)        // PARTY_AGREE: a member's hit points
    | Exp(id: int, reward: int, levelUp: bool)       // PARTY_EXP: a member's shared experience
    | Talk(from: int, message: string)               // TALK_OPEN: party chat

  /** One packet handed to one character's client. */
  datatype Packet = Packet(to: Character, body: Payload)

  /** The characters' clients, seen as one outbox in sending order. */
  class Transport {
    var sent: seq<Packet>

    method Send(to: Character, body: Payload)
      modifies this
      ensures sent == old(sent) + [Packet(to, body)]
    {
      sent := sent + [Packet(to, body)];
    }
  }

  /** The part of a character that the party reads and writes. */
  class Character {
    /** The id of the character's player, which every party packet carries (not the
        character's own database id). */
    const id: int
    const name: string
    var level: Byte
    var exp: int
    var statpoints: Short
    var skillpoints: Short
    var hp: Short
    var maxhp: Short
    var mapId: int
    var nowhere: bool
    var party: Party?
    /** How many times the derived stats were recalculated (`CalculateStats`). */
    ghost var statRecalcs: nat

    function Status(): Progress
      reads this
    {
      Progress(level, exp, statpoints, skillpoints)
    }
  }

  /** The world's registry of live parties. */
  class World {
    var parties: seq<Party>
  }

  /** `body` sent to each of `ms` in order, skipping `skip` (`null` skips nobody). */
  function Fanout(ms: seq<Character>, skip: Character?, body: Payload): seq<Packet>
  {
    if ms == [] then []
    else Fanout(ms[..|ms| - 1], skip, body) + (if ms[|ms| - 1] != skip then [Packet(ms[|ms| - 1], body)] else [])
  }

  /** Every packet of a fan-out carries `body` to a member other than `skip`, and every
      member other than `skip` receives it. */
  lemma {:induction false} FanoutRecipients(ms: seq<Character>, skip: Character?, body: Payload)
    ensures forall p :: p in Fanout(ms, skip, body) ==> p.body == body && p.to in ms && p.to != skip
    ensures forall m :: m in ms && m != skip ==> Packet(m, body) in Fanout(ms, skip, body)
  {
    if ms != [] {
      var init := ms[..|ms| - 1];
      FanoutRecipients(init, skip, body);
      assert ms == init + [ms[|ms| - 1]];
    }
  }

  /** Skipping nobody sends to every member, one packet each, in member order. */
  lemma {:induction false} FanoutToAll(ms: seq<Character>, body: Payload)
    ensures |Fanout(ms, null, body)| == |ms|
    ensures forall k :: 0 <= k < |ms| ==> Fanout(ms, null, body)[k] == Packet(ms[k], body)
  {
    if ms != [] {
      FanoutToAll(ms[..|ms| - 1], body);
    }
  }

  /** Skipping a character that is not a member skips nobody. */
  lemma {:induction false} FanoutSkipsOnlyMembers(ms: seq<Character>, skip: Character, body: Payload)
    requires skip !in ms
    ensures Fanout(ms, skip, body) == Fanout(ms, null, body)
  {
    if ms != [] {
      FanoutSkipsOnlyMembers(ms[..|ms| - 1], skip, body);
    }
  }

  /** In a member list without repeats, skipping a member leaves one packet fewer. */
  lemma {:induction false} FanoutSkipsOneMember(ms: seq<Character>, skip: Character, body: Payload)
    requires Distinct(ms) && skip in ms
    ensures |Fanout(ms, skip, body)| == |ms| - 1
  {
    var init, last := ms[..|ms| - 1], ms[|ms| - 1];
    assert ms == init + [last];
    if last == skip {
      assert skip !in init;
      FanoutSkipsOnlyMembers(init, skip, body);
      FanoutToAll(init, body);
    } else {
      assert Distinct(init);
      FanoutSkipsOneMember(init, skip, body);
    }
  }

  /** The loop over the member list that hands `body` to each member's client, skipping
      `skip`. */
  method Broadcast(ms: seq<Character>, skip: Character?, body: Payload, net: Transport)
    modifies net
    ensures net.sent == old(net.sent) + Fanout(ms, skip, body)
  {
    var i := 0;
    while i < |ms|
      invariant 0 <= i <= |ms|
      invariant net.sent == old(net.sent) + Fanout(ms[..i], skip, body)
    {
      if ms[i] != skip {
        net.Send(ms[i], body);
      }
      assert ms[..i + 1][..i] == ms[..i];
      i := i + 1;
    }
    assert ms[..i] == ms;
  }

  /** A member's roster line. */
  function Info(m: Character, leader: Character): MemberInfo
    reads m
  {
    MemberInfo(m.id, m == leader, m.level, m.hp, m.maxhp, m.name)
  }

  /** The roster of `ms`: one line per member, in member order. */
  function RosterOf(ms: seq<Character>, leader: Character): (r: seq<MemberInfo>)
    reads ms
    ensures |r| == |ms| && forall k :: 0 <= k < |ms| ==> r[k] == Info(ms[k], leader)
  {
    if ms == [] then [] else RosterOf(ms[..|ms| - 1], leader) + [Info(ms[|ms| - 1], leader)]
  }

  /** In a member list without repeats that holds the leader, exactly one line is flagged. */
  lemma LeaderFlaggedOnce(ms: seq<Character>, leader: Character)
    requires Distinct(ms) && leader in ms
    ensures exists k :: 0 <= k < |ms| && RosterOf(ms, leader)[k].isLeader
    ensures forall j, k ::
      (0 <= j < |ms| && 0 <= k < |ms| && RosterOf(ms, leader)[j].isLeader && RosterOf(ms, leader)[k].isLeader) ==> j == k
  {
    var k :| 0 <= k < |ms| && ms[k] == leader;
    assert RosterOf(ms, leader)[k].isLeader;
  }

  /** The members' progress, in member order. */
  function Standings(ms: seq<Character>): (ps: seq<Progress>)
    reads ms
    ensures |ps| == |ms| && forall k :: 0 <= k < |ms| ==> ps[k] == ms[k].Status()
  {
    if ms == [] then [] else Standings(ms[..|ms| - 1]) + [ms[|ms| - 1].Status()]
  }

  /** How often each member's stats were recalculated, in member order. */
  ghost function Recalcs(ms: seq<Character>): (rs: seq<nat>)
    reads ms
    ensures |rs| == |ms| && forall k :: 0 <= k < |ms| ==> rs[k] == ms[k].statRecalcs
  {
    if ms == [] then [] else Recalcs(ms[..|ms| - 1]) + [ms[|ms| - 1].statRecalcs]
  }

  /** Which members share experience on `onMap`: those on that map and not nowhere. */
  function Participation(ms: seq<Character>, onMap: int): (part: seq<bool>)
    reads ms
    ensures |part| == |ms| && forall k :: 0 <= k < |ms| ==> (part[k] <==> ms[k].mapId == onMap && !ms[k].nowhere)
  {
    if ms == [] then [] else Participation(ms[..|ms| - 1], onMap) + [ms[|ms| - 1].mapId == onMap && !ms[|ms| - 1].nowhere]
  }

  /** The EXP packet member `k` receives in a round: one if it takes part, with its reward
      and level-up flag, none otherwise. */
  function ExpReport(ms: seq<Character>, r: Round, k: nat): seq<Packet>
    requires r.Valid() && |ms| == |r.part| && k < |ms|
  {
    if r.part[k] then [Packet(ms[k], Exp(ms[k].id, r.RewardAt(k), r.LeveledUp(k)))] else []
  }

  /** The EXP packets of a round among the first `n` members, in member order. */
  function ExpReports(ms: seq<Character>, r: Round, n: nat): seq<Packet>
    requires r.Valid() && |ms| == |r.part| && n <= |ms|
  {
    if n == 0 then [] else ExpReports(ms, r, n - 1) + ExpReport(ms, r, n - 1)
  }

  /** One EXP packet per participant. */
  lemma {:induction false} ExpReportsCount(ms: seq<Character>, r: Round, n: nat)
    requires r.Valid() && |ms| == |r.part| && n <= |ms|
    ensures |ExpReports(ms, r, n)| == CountUpTo(r.part, n)
  {
    if n > 0 {
      ExpReportsCount(ms, r, n - 1);
    }
  }

  /** Exactly the participants receive an EXP packet, each carrying its own reward and flag. */
  lemma {:induction false} ExpReportsReachParticipants(ms: seq<Character>, r: Round, n: nat)
    requires r.Valid() && |ms| == |r.part| && n <= |ms|
    ensures forall p :: p in ExpReports(ms, r, n) ==>
      exists k :: 0 <= k < n && r.part[k] && p == Packet(ms[k], Exp(ms[k].id, r.RewardAt(k), r.LeveledUp(k)))
    ensures forall k :: 0 <= k < n && r.part[k] ==>
      Packet(ms[k], Exp(ms[k].id, r.RewardAt(k), r.LeveledUp(k))) in ExpReports(ms, r, n)
  {
    if n > 0 {
      ExpReportsReachParticipants(ms, r, n - 1);
      var prev, last := ExpReports(ms, r, n - 1), ExpReport(ms, r, n - 1);
      assert ExpReports(ms, r, n) == prev + last;
      forall p | p in prev + last
        ensures exists k :: 0 <= k < n && r.part[k] && p == Packet(ms[k], Exp(ms[k].id, r.RewardAt(k), r.LeveledUp(k)))
      {
        if p !in prev {
          assert r.part[n - 1] && p == last[0];
        }
      }
    }
  }

  class Party {
    var world: World?
    var members: seq<Character>
    var leader: Character
    var tempExpSum: int

    /** At least two members, the leader among them, no member twice, and every member's
        back-reference pointing at this party. */
    ghost predicate Valid()
      reads this, members
    {
      && 2 <= |members|
      && leader in members
      && Distinct(members)
      && forall m :: m in members ==> m.party == this
    }

    /** The roster of this party. */
    function Entries(): seq<MemberInfo>
      reads this, members
    {
      RosterOf(members, leader)
    }

    /** The round `ShareEXP` computes for the current members. */
    ghost function RoundOf(exp: int, mode: int, onMap: int, cfg: Config): (r: Round)
      reads this, members
      requires TableCovers(cfg)
      ensures r.Valid()
    {
      Round(Standings(members), Participation(members, onMap), exp, mode, cfg)
    }

    /** A party of `leader` and `other`, registered with the world; each founder points back
        at it and receives the roster, the leader first. Nothing stops a character from
        founding a party with itself, but such a party lists it twice and is not `Valid`. */
    constructor (world: World, leader: Character, other: Character, net: Transport)
      modifies world, leader`party, other`party, net
      ensures Valid() <==> leader != other
      ensures this.world == world && members == [leader, other] && this.leader == leader
      ensures leader.party == this && other.party == this
      ensures world.parties == old(world.parties) + [this]
      ensures net.sent == old(net.sent) + [Packet(leader, Roster(Entries())), Packet(other, Roster(Entries()))]
    {
      this.world := world;
      members := [leader, other];
      this.leader := leader;
      tempExpSum := 0;
      new;
      world.parties := world.parties + [this];
      leader.party := this;
      other.party := this;
      if leader == other {
        assert !Distinct(members) by { assert members[0] == members[1]; }
      } else {
        assert Valid();
      }
      RefreshMembers(leader, net);
      RefreshMembers(other, net);
    }

    /** Party chat: the message goes to every member, or to every member but the sender
        when `echo` is off. */
    method Msg(from: Character, message: string, echo: bool, net: Transport)
      modifies net
      ensures net.sent == old(net.sent) + Fanout(members, if echo then null else from, Talk(from.id, message))
    {
      Broadcast(members, if echo then null else from, Talk(from.id, message), net);
    }

    /** `c` joins at the end of the list; the other members are told, then `c` receives
        the roster. */
    method Join(c: Character, net: Transport)
      requires Valid() && c !in members
      modifies this, c`party, net
      ensures Valid()
      ensures members == old(members) + [c] && leader == old(leader) && world == old(world)
      ensures c.party == this
      ensures net.sent == old(net.sent) + Fanout(members, c, Add(Info(c, leader))) + [Packet(c, Roster(Entries()))]
    {
      c.party := this;
      members := members + [c];
      assert Valid();
      Broadcast(members, c, Add(MemberInfo(c.id, c == leader, c.level, c.hp, c.maxhp, c.name)), net);
      RefreshMembers(c, net);
    }

    /** `c` leaves. With more than two members and `c` not the leader, its first occurrence
        is erased, its back-reference cleared, the remaining members told and `c` sent a
        close notice; otherwise the whole party is destroyed. */
    method Leave(c: Character, net: Transport)
      requires Valid()
      modifies this, c`party, members`party, world, net
      ensures leader == old(leader) && world == old(world)
      ensures if old(|members|) > 2 && c != leader then
          && Valid()
          && members == RemoveFirst(old(members), c)
          && c.party == null
          && (world != null ==> world.parties == old(world.parties))
          && net.sent == old(net.sent) + Fanout(members, c, Remove(c.id)) + [Packet(c, Close)]
        else
          && members == old(members)
          && (world != null ==> world.parties == RemoveFirst(old(world.parties), this))
          && (forall m :: m in members ==> m.party == null)
          && (c !in members ==> c.party == old(c.party))
          && net.sent == old(net.sent) + Fanout(members, null, Close)
    {
      if |members| > 2 && c != leader {
        ghost var was := members;
        var i := 0;
        while i < |members|
          invariant 0 <= i <= |members|
          invariant members == was && c !in members[..i]
          modifies this
        {
          if members[i] == c {
            RemoveFirstAt(was, c, i);
            members := members[..i] + members[i + 1..];
            break;
          }
          assert members[..i + 1] == members[..i] + [members[i]];
          i := i + 1;
        }
        assert members == RemoveFirst(was, c) by {
          if c !in was {
            assert members == was;
          }
        }
        RemoveFirstDistinct(was, c);

        c.party := null;

        Broadcast(members, c, Remove(c.id), net);
        net.Send(c, Close);
      } else {
        Destroy(net);
      }
    }

    /** One member receives the roster: one line per member, in member order. */
    method RefreshMembers(c: Character, net: Transport)
      modifies net
      ensures net.sent == old(net.sent) + [Packet(c, Roster(Entries()))]
    {
      var entries: seq<MemberInfo> := [];
      var i := 0;
      while i < |members|
        invariant 0 <= i <= |members|
        invariant entries == RosterOf(members[..i], leader)
      {
        var m := members[i];
        entries := entries + [MemberInfo(m.id, m == leader, m.level, m.hp, m.maxhp, m.name)];
        assert members[..i + 1][..i] == members[..i];
        i := i + 1;
      }
      assert members[..i] == members;
      net.Send(c, Roster(entries));
    }

    /** Every member, `c` included, receives `c`'s hit points. */
    method UpdateHP(c: Character, net: Transport)
      modifies net
      ensures net.sent == old(net.sent) + Fanout(members, null, Agree(c.id, c.hp, c.maxhp))
    {
      Broadcast(members, null, Agree(c.id, c.hp, c.maxhp), net);
    }

    /** The first pass of sharing: the number of members on `onMap` that are not nowhere,
        and the sum of their levels with level 0 counted as 1. */
    method Tally(onMap: int) returns (sumlevel: nat, count: nat)
      ensures count == CountUpTo(Participation(members, onMap), |members|)
      ensures sumlevel == WeightUpTo(Standings(members), Participation(members, onMap), |members|)
      ensures sumlevel >= count
    {
      ghost var before, part := Standings(members), Participation(members, onMap);
      sumlevel, count := 0, 0;
      var i := 0;
      while i < |members|
        invariant 0 <= i <= |members|
        invariant count == CountUpTo(part, i) && sumlevel == WeightUpTo(before, part, i)
      {
        var m := members[i];
        if m.mapId == onMap && !m.nowhere {
          if m.level == 0 {
            sumlevel := sumlevel + 1;
          } else {
            sumlevel := sumlevel + m.level;
          }
          count := count + 1;
        }
        i := i + 1;
      }
      WeightAtLeastCount(before, part, |members|);
    }

    /** One participant's turn in sharing: the reward is added, the level-up check is made
        once and, on a level-up, the level and the points rise; then the member is sent
        its EXP packet. No other member changes. */
    method Award(i: nat, m: Character, reward: int, cfg: Config, net: Transport) returns (levelUp: bool)
      requires i < |members| && members[i] == m && Distinct(members) && TableCovers(cfg)
      modifies m`level, m`exp, m`statpoints, m`skillpoints, m`statRecalcs, net
      ensures (m.Status(), levelUp) == Grant(old(m.Status()), reward, cfg)
      ensures m.statRecalcs == old(m.statRecalcs) + (if levelUp then 1 else 0)
      ensures forall k :: 0 <= k < |members| && k != i ==>
        members[k].Status() == old(members[k].Status()) && members[k].statRecalcs == old(members[k].statRecalcs)
      ensures net.sent == old(net.sent) + [Packet(m, Exp(m.id, reward, levelUp))]
    {
      m.exp := m.exp + reward;
      levelUp := m.level < cfg.maxLevel && m.exp >= cfg.expTable[m.level + 1];
      if levelUp {
        m.level := if m.level == 255 then 0 else m.level + 1;
        m.statpoints := ToShort(m.statpoints + cfg.statPerLevel);
        m.skillpoints := ToShort(m.skillpoints + cfg.skillPerLevel);
        m.statRecalcs := m.statRecalcs + 1;  // CalculateStats()
      }
      net.Send(m, Exp(m.id, reward, levelUp));
      assert forall k :: 0 <= k < |members| && k != i ==> members[k] != m;
    }

    /** Midway through sharing round `r`: the first `i` members are in their final state,
        the others in their initial one; `recalcs0` are the initial stat-recalculation counts. */
    ghost predicate SharedUpTo(r: Round, i: nat, recalcs0: seq<nat>)
      reads this, members
      requires r.Valid() && |r.part| == |members| && i <= |members|
    {
      && |recalcs0| == |members|
      && forall k :: 0 <= k < |members| ==>
           && members[k].Status() == (if k < i then r.After(k) else r.before[k])
           && members[k].statRecalcs == recalcs0[k] + (if k < i && r.LeveledUp(k) then 1 else 0)
    }

    /** Member `i`'s turn in the second pass of sharing, given the first pass's `count` and
        `sumlevel`: a participant's reward is computed (in an unknown mode the last reward,
        `last`, stays in force), the member is awarded and sent its EXP packet; anyone else
        is passed over. */
    method Turn(i: nat, ghost r: Round, exp: int, mode: int, onMap: int, cfg: Config,
                count: nat, sumlevel: nat, last: int, net: Transport,
                ghost sent0: seq<Packet>, ghost recalcs0: seq<nat>)
      returns (reward: int)
      requires r.Valid() && |r.part| == |members| && i < |members| && Distinct(members)
      requires r.exp == exp && r.mode == mode && r.cfg == cfg
      requires count == r.Count() && sumlevel == r.Weight()
      requires r.part[i] <==> members[i].mapId == onMap && !members[i].nowhere
      requires mode != 1 && mode != 2 ==> last == 0
      requires SharedUpTo(r, i, recalcs0)
      requires net.sent == sent0 + ExpReports(members, r, i)
      modifies members`level, members`exp, members`statpoints, members`skillpoints, members`statRecalcs, net
      ensures mode != 1 && mode != 2 ==> reward == 0
      ensures SharedUpTo(r, i + 1, recalcs0)
      ensures net.sent == sent0 + ExpReports(members, r, i + 1)
    {
      reward := last;
      var m := members[i];
      if m.mapId == onMap && !m.nowhere {
        ParticipantCounted(r.part, i, |members|);
        WeightAtLeastCount(r.before, r.part, |members|);
        if mode == 1 {
          reward := CeilDiv(exp, count);
        } else if mode == 2 {
          reward := CeilDiv(exp * (if m.level == 0 then 1 else m.level), sumlevel);
        }
        assert reward == r.RewardAt(i);
        var levelUp := Award(i, m, reward, cfg, net);
      }
    }

    /** The second pass of sharing, given the round and the first pass's `count` and
        `sumlevel`: every member in order takes its turn. */
    method Distribute(ghost r: Round, exp: int, mode: int, onMap: int, cfg: Config,
                      count: nat, sumlevel: nat, net: Transport, ghost recalcs0: seq<nat>)
      requires r.Valid() && |r.part| == |members| && Distinct(members)
      requires r.exp == exp && r.mode == mode && r.cfg == cfg
      requires count == r.Count() && sumlevel == r.Weight()
      requires forall k :: 0 <= k < |members| ==> (r.part[k] <==> members[k].mapId == onMap && !members[k].nowhere)
      requires forall k :: 0 <= k < |members| ==> members[k].Status() == r.before[k]
      requires |recalcs0| == |members| && forall k :: 0 <= k < |members| ==> members[k].statRecalcs == recalcs0[k]
      modifies members`level, members`exp, members`statpoints, members`skillpoints, members`statRecalcs, net
      ensures forall k :: 0 <= k < |members| ==>
        members[k].Status() == r.After(k) && members[k].statRecalcs == recalcs0[k] + (if r.LeveledUp(k) then 1 else 0)
      ensures net.sent == old(net.sent) + ExpReports(members, r, |members|)
    {
      var reward := 0;
      var i := 0;
      while i < |members|
        invariant 0 <= i <= |members|
        invariant mode != 1 && mode != 2 ==> reward == 0
        invariant SharedUpTo(r, i, recalcs0)
        invariant net.sent == old(net.sent) + ExpReports(members, r, i)
        modifies members`level, members`exp, members`statpoints, members`skillpoints, members`statRecalcs, net
      {
        reward := Turn(i, r, exp, mode, onMap, cfg, count, sumlevel, reward, net, old(net.sent), recalcs0);
        i := i + 1;
      }
    }

    /** Shares `exp` among the members on `onMap` that are not nowhere: each receives its
        reward and gains at most one level, and is sent an EXP packet, in member order;
        the other members are left as they were. */
    method ShareEXP(exp: int, mode: int, onMap: int, cfg: Config, net: Transport)
      requires Valid() && TableCovers(cfg)
      modifies members`level, members`exp, members`statpoints, members`skillpoints, members`statRecalcs, net
      ensures Valid()
      ensures var r := old(RoundOf(exp, mode, onMap, cfg));
        && (forall k :: 0 <= k < |members| ==>
              && members[k].Status() == r.After(k)
              && members[k].statRecalcs == old(members[k].statRecalcs) + (if r.LeveledUp(k) then 1 else 0))
        && net.sent == old(net.sent) + ExpReports(members, r, |members|)
    {
      ghost var r := RoundOf(exp, mode, onMap, cfg);
      var sumlevel, count := Tally(onMap);
      Distribute(r, exp, mode, onMap, cfg, count, sumlevel, net, Recalcs(members));
    }

    /** The destructor's effects: the party leaves the world's registry, every member's
        back-reference is cleared and every member, in order, receives a close notice. */
    method Destroy(net: Transport)
      modifies world, members`party, net
      ensures world != null ==> world.parties == RemoveFirst(old(world.parties), this)
      ensures forall m :: m in members ==> m.party == null && m.Status() == old(m.Status())
      ensures net.sent == old(net.sent) + Fanout(members, null, Close)
    {
      if world != null {
        world.parties := RemoveFirst(world.parties, this);
      }
      var i := 0;
      while i < |members|
        invariant 0 <= i <= |members|
        invariant forall k :: 0 <= k < i ==> members[k].party == null
        invariant forall m :: m in members ==> m.Status() == old(m.Status())
        invariant net.sent == old(net.sent) + Fanout(members[..i], null, Close)
        modifies members`party, net
      {
        members[i].party := null;
        net.Send(members[i], Close);
        assert members[..i + 1][..i] == members[..i];
        i := i + 1;
      }
      assert members[..i] == members;
    }
  }
}
