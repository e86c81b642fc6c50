# EOSERV party and character core, modelled in Dafny

This project models two parts of the EOSERV game server.

- **Character declarations** (`src/character.hpp`):
  - the centisecond-of-day `Timestamp`: its two constructors, its clock getters and its wrap-safe subtraction;
  - the ordering of inactive quest states, and the ordered set `quests_inactive` that holds them;
  - the `hidden` bit flags, `HideAll` and the five `IsHide*` predicates.
- **Party coordinator** (`src/party.cpp`), modelled as classes:
  - creating a party;
  - party chat with its echo filter;
  - joining and leaving;
  - sending the roster;
  - hit-point updates;
  - sharing experience among the members on a map;
  - closing a party (the destructor).

Files:

- `timestamp.dfy` (module `Time`): the timestamp, with C++'s truncating `/` and `%` written out.
- `character.dfy` (module `Characters`): quest-state ordering, set insertion, and the hide flags.
- `seqs.dfy` (module `Seqs`): "no repeats" and "erase the first occurrence". These are the member list's and the party registry's operations.
- `exp_share.dfy` (module `ExpShare`): the arithmetic of one `ShareEXP` call. A `Round` holds the members' progress beforehand, who takes part, the experience, the mode and the settings. Functions of a `Round` give each member's reward and final state. The lemmas bound the total handed out.
- `party.dfy` (module `Parties`): the imperative model.
  - `Character`, `Party` and `World` are classes with the fields the party reads and writes.
  - `Transport` is the outbox. Every packet sent to a client is appended to it, by content, in sending order.
  - Each method is proved against specification functions:
    - `Fanout`: which members receive a broadcast.
    - `RosterOf`: the roster.
    - `ExpReports`: the EXP packets of a share.
    - `Round.After` and `Round.LeveledUp`: a member's state after a share.

Integer widths are modelled where they matter:

- `level` is an `unsigned char`. `++level` wraps 255 to 0.
- `statpoints` and `skillpoints` are `short`. Adding to them wraps modulo 2^16 (`ExpShare.ToShort`).
- `quest_id` is a `short`.
- The timestamp's `int` constructor uses C++'s `%`, whose remainder takes the sign of the dividend.

## Model

| member | source | states |
|---|---|---|
| Time.Default | src/character.hpp:40-42 | the default timestamp is the unset sentinel -1, not a time of day |
| Time.FromInt | src/character.hpp:44-46 | a non-negative count is reduced modulo 8640000 into a time of day; a negative count lands in (-8640000, 0]; either way the stored value is congruent to the count modulo one day |
| Time.Timestamp.Minus | src/character.hpp:53-62 | an unset left operand yields the right operand's raw value, and an unset right operand yields the left one's; for two times of day the result lies in [0, 8640000) and is their difference modulo one day |
| Time.Timestamp.Hour | src/character.hpp:48 | for a time of day the hour lies in [0, 24); see also ClockFields |
| Time.Timestamp.Minute | src/character.hpp:49 | for a time of day the minute lies in [0, 60); see also ClockFields |
| Time.Timestamp.Second | src/character.hpp:50 | for a time of day the second lies in [0, 60); see also ClockFields |
| Time.Timestamp.Millisecond | src/character.hpp:51 | for a time of day the millisecond lies in [0, 1000) and is a multiple of 10; see also ClockFields |
| Time.ClockFields | src/character.hpp:48-51 | for a time of day, hour is in [0, 24), minute and second are in [0, 60), and millisecond is in [0, 1000) and a multiple of 10; the four recompose to the stored value |
| Time.MinusInverts | src/character.hpp:53-62 | adding `a - b` to `b` and reducing modulo one day gives back `a` |
| Time.MinusAcrossMidnight | src/character.hpp:58-61 | `Timestamp(100) - Timestamp(8639990) == 110` across midnight, and the reverse is 8639890 |
| Time.MinusSelf | src/character.hpp:55-61 | a set value minus itself is 0; the sentinel minus itself is -1 |
| Time.NegativeCountMayReadAsUnset | src/character.hpp:44-46 | the count -1, and the same count less any whole number of days that keeps it within `int` (up to 248 days), builds a value equal to the unset sentinel |
| Characters.Before | src/character.hpp:127-130 | `operator<` compares quest ids alone; its contract is stated by BeforeIsStrictWeakOrder |
| Characters.BeforeIsStrictWeakOrder | src/character.hpp:127-130 | `operator<` is irreflexive and transitive; two states are equivalent (neither is before the other) exactly when their quest ids are equal |
| Characters.Insert | src/character.hpp:261 | `std::set::insert` on `quests_inactive`; its contract is stated by InsertKeepsOrder and InsertRefusesDuplicates |
| Characters.InsertKeepsOrder | src/character.hpp:261 | inserting into `quests_inactive` keeps it strictly ascending by quest id, and the ids become the old ids plus the new one |
| Characters.InsertRefusesDuplicates | src/character.hpp:261 | a state whose quest id is already present leaves the set unchanged; any other state is added, the set grows by one, and every old element stays |
| Characters.OrderedHoldsOnePerQuest | src/character.hpp:261 | the ordered set holds at most one state per quest id |
| Characters.HideAllIsTheImplicitFlags | src/character.hpp:136-150 | `HideAll` is the union of the five implicit flags, and no explicit flag overlaps it |
| Characters.IsHideInvisible | src/character.hpp:266 | tests the `HideInvisible` bit; its contract is stated by PredicatesReadOnlyHideAll, AllHiddenIffHideAll and ExplicitFlagsDoNotHide |
| Characters.IsHideOnline | src/character.hpp:267 | tests the `HideOnline` bit; see PredicatesReadOnlyHideAll, AllHiddenIffHideAll and ExplicitFlagsDoNotHide |
| Characters.IsHideNpc | src/character.hpp:268 | tests the `HideNpc` bit; see PredicatesReadOnlyHideAll, AllHiddenIffHideAll and ExplicitFlagsDoNotHide |
| Characters.IsHideAdmin | src/character.hpp:269 | tests the `HideAdmin` bit; see PredicatesReadOnlyHideAll, AllHiddenIffHideAll and ExplicitFlagsDoNotHide |
| Characters.IsHideWarp | src/character.hpp:270 | tests the `HideWarp` bit; see PredicatesReadOnlyHideAll, AllHiddenIffHideAll and ExplicitFlagsDoNotHide |
| Characters.PredicatesReadOnlyHideAll | src/character.hpp:266-270 | each `IsHide*` predicate gives the same answer on `hidden` and on `hidden & HideAll` |
| Characters.AllHiddenIffHideAll | src/character.hpp:266-270 | all five predicates hold exactly when every bit of `HideAll` is set |
| Characters.ExplicitFlagsDoNotHide | src/character.hpp:266-270 | setting bits outside `HideAll`, the explicit flags among them, changes none of the five predicates |
| Seqs.RemoveFirst | src/party.cpp:85-92 | erasing the first occurrence shortens the list by one when the element is present and leaves it unchanged otherwise |
| Seqs.RemoveFirstAt | src/party.cpp:85-92 | when the first occurrence is at index `i`, erasing gives the list with exactly index `i` spliced out |
| Seqs.RemoveFirstMultiset | src/party.cpp:85-92 | erasing removes exactly one copy of the element and nothing else |
| Seqs.RemoveFirstDistinct | src/party.cpp:85-92 | in a list without repeats, erasing keeps it without repeats and keeps every element except the erased one |
| Seqs.RemoveFirstAppended | src/party.cpp:57-92 | a character that joins (is appended) and then leaves (is erased) gives back the member list from before the join |
| ExpShare.ToShort | src/party.cpp:198-199 | storing into a `short` leaves a value within `short` range unchanged |
| ExpShare.ToShortWraps | src/party.cpp:198-199 | the stored `short` is congruent to the `int` sum modulo 2^16 |
| ExpShare.CeilDiv | src/party.cpp:176 | the result is the ceiling of `a / b`: `b * (q - 1) < a <= b * q` |
| ExpShare.Reward | src/party.cpp:173-182 | mode 1 gives the ceiling of `exp / count`; mode 2 gives the ceiling of `exp * weight(level) / total weight`; any other mode gives 0 |
| ExpShare.Grant | src/party.cpp:186-201 | one member's reward and single level-up check; its contract is stated by GrantRaisesAtMostOneLevel and GrantRespectsMaxLevel |
| ExpShare.GrantRaisesAtMostOneLevel | src/party.cpp:186-201 | the reward is added to exp; a level-up happens exactly when the level is below `MaxLevel` and the new exp reaches the next level's table entry; a level-up raises the level by one (mod 256) and adds the configured stat and skill points once |
| ExpShare.GrantRespectsMaxLevel | src/party.cpp:188-197 | with `MaxLevel` at most 255, a level at or below it stays at or below it, and a level-up is a plain increment |
| ExpShare.ParticipantCounted | src/party.cpp:151-165 | if anyone takes part, the participant count is positive, so the divisions of the second pass are defined |
| ExpShare.WeightAtLeastCount | src/party.cpp:155-163 | the sum of levels (level 0 counted as 1) is at least the participant count |
| ExpShare.Round.NonParticipantsUntouched | src/party.cpp:169-172 | a member off the map or nowhere keeps its progress and never levels up |
| ExpShare.Round.EvenSplitIsEven | src/party.cpp:175-177 | in mode 1 every participant receives the same reward |
| ExpShare.Round.TotalBounds | src/party.cpp:167-182 | in modes 1 and 2 the total handed out is at least `exp` and less than `exp` plus the participant count; other modes hand out nothing |
| Parties.Transport.Send | src/party.cpp:52 | sending appends exactly one packet to the outbox |
| Parties.Fanout | src/party.cpp:48-54 | the packets of one member loop (also at 70-76, 98-104 and 139-142); its contract is stated by FanoutRecipients, FanoutToAll, FanoutSkipsOnlyMembers and FanoutSkipsOneMember |
| Parties.FanoutRecipients | src/party.cpp:48-54 | every broadcast packet carries the body to a member other than the skipped one, and every other member receives it |
| Parties.FanoutToAll | src/party.cpp:139-142 | skipping nobody sends exactly one packet per member, in member order |
| Parties.FanoutSkipsOnlyMembers | src/party.cpp:98-104 | the leaver is already erased when the others are told, so skipping it, a non-member, is the same as skipping nobody |
| Parties.FanoutSkipsOneMember | src/party.cpp:70-76 | the joiner is already appended when the others are told, so in a list without repeats, skipping a member sends one packet fewer than there are members |
| Parties.Broadcast | src/party.cpp:48-54 | the member loop sends the body to every member except the skipped one, in member order, and nothing else |
| Parties.RosterOf | src/party.cpp:121-128 | the roster has one line per member, in member order, each with that member's id, leader flag, level, hit points and name |
| Parties.LeaderFlaggedOnce | src/party.cpp:124 | when the leader is a member of a list without repeats, exactly one roster line carries the leader flag |
| Parties.Participation | src/party.cpp:153 | a member takes part in sharing exactly when it is on the map and not nowhere |
| Parties.ExpReportsCount | src/party.cpp:190-203 | sharing sends exactly one EXP packet per participant |
| Parties.ExpReportsReachParticipants | src/party.cpp:167-204 | every EXP packet goes to a participant and carries its reward and level-up flag, and every participant receives one |
| Parties.Party.constructor | src/party.cpp:20-37 | the party registers with the world; its members are leader then other, with the leader recorded; both back-references point at it and no other field of the founders changes; each founder receives the roster, the leader first; the party invariant holds exactly when the two founders are different characters |
| Parties.Party.Msg | src/party.cpp:39-55 | the chat packet goes to every member, in order, except the sender when echo is off |
| Parties.Party.Join | src/party.cpp:57-79 | the character is appended to the members and points back at the party, its other fields unchanged; every member but the newcomer is told of the join, then the newcomer receives the roster; the invariant is kept |
| Parties.Party.Leave | src/party.cpp:81-115 | with more than two members and a non-leader leaving, the character's first occurrence is erased, its back-reference is cleared, the rest are told, the leaver receives a close notice, and the invariant is kept; otherwise the party is destroyed as by Destroy, and a leaver that is not a member keeps its `party` field; on both paths only the `party` field of any character changes |
| Parties.Party.RefreshMembers | src/party.cpp:117-131 | one character receives one packet: the roster of all members in order |
| Parties.Party.UpdateHP | src/party.cpp:133-143 | every member, the subject included, receives the subject's hit points |
| Parties.Party.Tally | src/party.cpp:147-165 | the first pass counts the participants and sums their levels, with level 0 counted as 1; the sum is at least the count |
| Parties.Party.Award | src/party.cpp:186-203 | a participant's turn: the member's progress becomes `Grant` of the old progress and reward; stats are recalculated once exactly on a level-up; no other member changes; one EXP packet with the level-up flag goes to the member |
| Parties.Party.Turn | src/party.cpp:167-204 | one iteration of the second pass moves the round from "first `i` members final" to "first `i + 1` final" and sends that member's EXP packet, if any |
| Parties.Party.Distribute | src/party.cpp:167-204 | after the second pass every member is in its final state, has its stats recalculated once per level gained, and the outbox holds the round's EXP packets in member order |
| Parties.Party.ShareEXP | src/party.cpp:145-205 | each member on the map and not nowhere receives its reward and gains at most one level; all others are unchanged; EXP packets go out in member order; the party invariant is kept |
| Parties.Party.Destroy | src/party.cpp:207-222 | the party is erased from the world's registry; every member's back-reference is cleared and no other field of any member changes; every member, in order, receives a close notice |

## Left out

- Wire encodings (`PacketBuilder`, packet ids, field widths) are not modelled. Packets are kept by content. One result: a leaver's close notice is written with `AddShort(255)` and the destructor's with `AddByte(255)`, and the model does not tell them apart.
- The hp-percent byte, `int(double(hp) / double(maxhp) * 100.0)`, is floating point. The packets carry `hp` and `maxhp` instead.
- `Msg` caps the message to `ChatMaxWidth` with `text_cap`/`ucfirst`. The capping is not modelled: the message is taken as given.
- The world's configuration and experience table are parameters (`ExpShare.Config`). `TableCovers` states that the table has an entry for every level that can be looked up.
- Memory: `Leave`'s `Destroy()` and the destructor free the party. The model keeps only their effects. `Destroy`'s own body is not part of this model.
- Parties.Party.Award: `CalculateStats` is not part of this model. Its only trace is the ghost counter `statRecalcs`, which counts how often it is called.
- Parties.Party.Award: `exp += reward` is on an `int` and can overflow. This is not modelled; the model's `exp` is unbounded.
- The source computes the reward ceilings in `double`; the model uses the exact integer ceiling (`ExpShare.CeilDiv`). The two agree for every `int` experience: the numerator `exp * level` is below 2^39 and so exact, the rounding error of the quotient is below 2^-14 divided by the divisor, which is less than the quotient's distance to any integer it differs from, and the ceiling is never larger in magnitude than `exp`, so the conversion back to `int` is exact too. The double arithmetic itself is not modelled.
- Parties.Party.Join: requires that the character is not already a member. The source does not check this; without it the "no member twice" invariant the sharing proofs rely on could break.
- A character's `map` pointer is compared by identity. The model uses a map id.
- The `hidden` field is an `int` in the source and a `bv32` in the model. Bitwise `&` is the same on both.
- Bodiless declarations of the two files (serialisation, inventory and spell helpers, quest context access, login and the rest of `Character`) are not part of this model.
- Character fields other than those the party reads and writes are not modelled.
- Resetting a quest might be expected to replace the earlier inactive entry for that quest id. `std::set::insert` instead keeps the existing entry and refuses the new one, and `Characters.Insert` does the same.
