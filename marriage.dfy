/**
 * The wedding invitations: starting from the best friends, each level
 * invites the friends named by the previous level who are not invited
 * yet, without repeats and sorted by name, until a level is empty or the
 * level cap is reached; the guests are the invited friends a gender
 * filter accepts, handed out one at a time by an iterator.
 *
 * Names are ordered by character code (the source's `localeCompare` is a
 * locale collation). The traversal requires every name listed among a
 * friend's friends to belong to someone (`NamesKnown`). The source needs
 * this only for friends it invites below the level cap: an unknown name
 * there becomes `undefined` in the next level, whose friends it then
 * cannot read; unknown names listed by friends never invited do it no
 * harm, and the model excludes those lists too. The properties of the
 * traversal also assume that no two friends share a name (`UniqueNames`).
 */
module Marriage {
  import opened Wrappers
  import opened Sorting

  datatype Friend = Friend(name: string, gender: string, best: bool, friends: seq<string>)

  /** The three filter objects; an argument that is no `Filter` is `None` where one is expected. */
  datatype Filter = Filter | MaleFilter | FemaleFilter

  /** `filter.whatGender(friend)`. */
  predicate WhatGender(filter: Filter, friend: Friend)
  {
    match filter
    case Filter => true
    case MaleFilter => friend.gender == "male"
    case FemaleFilter => friend.gender == "female"
  }

  /** The level cap: `Infinity` by default, otherwise a number. */
  datatype Limit = Unlimited | Upto(maxLevel: int)

  /** `maxLevel >= currentLvl`. */
  predicate Within(limit: Limit, current: int)
  {
    limit.Unlimited? || limit.maxLevel >= current
  }

  /** The key of `simpleSort`. */
  function ByName(friend: Friend): string
  {
    friend.name
  }

  /** No friend occurs twice. */
  ghost predicate Distinct(s: seq<Friend>)
  {
    forall f :: multiset(s)[f] <= 1
  }

  /** Some friend carries `name`. */
  predicate Known(friends: seq<Friend>, name: string)
  {
    exists j :: 0 <= j < |friends| && friends[j].name == name
  }

  /** No two friends share a name. */
  predicate UniqueNames(friends: seq<Friend>)
  {
    forall i, j :: 0 <= i < j < |friends| ==> friends[i].name != friends[j].name
  }

  /** Every name listed among a friend's friends belongs to some friend. */
  predicate NamesKnown(friends: seq<Friend>)
  {
    forall f, n :: f in friends && n in f.friends ==> Known(friends, n)
  }

  /** What the traversal assumes of its input: names are unique and every listed name is known. */
  predicate Consistent(friends: seq<Friend>)
  {
    UniqueNames(friends) && NamesKnown(friends)
  }

  // ---------------------------------------------------------------------
  // One level

  /** `friends.filter(friend => friend.best)`. */
  function Bests(friends: seq<Friend>): (r: seq<Friend>)
    ensures forall f :: f in r <==> f in friends && f.best
  {
    if |friends| == 0 then []
    else
      assert friends == friends[..|friends| - 1] + [friends[|friends| - 1]];
      Bests(friends[..|friends| - 1]) + (if friends[|friends| - 1].best then [friends[|friends| - 1]] else [])
  }

  /** The first level: the best friends, sorted by name. */
  function FirstLevel(friends: seq<Friend>): (level: seq<Friend>)
    ensures SortedBy(level, ByName)
    ensures forall f :: f in level <==> f in friends && f.best
  {
    var level := SortBy(Bests(friends), ByName);
    assert forall f :: f in level <==> f in Bests(friends) by {
      forall f ensures f in level <==> f in Bests(friends) {
        assert f in level <==> f in multiset(level);
      }
    }
    level
  }

  /** `.reduce((object, friend) => object.concat(friend.friends), [])`. */
  function NamesOf(level: seq<Friend>): (names: seq<string>)
    ensures forall n :: n in names <==> exists g :: g in level && n in g.friends
  {
    if |level| == 0 then []
    else
      assert forall g :: g in level <==> g == level[0] || g in level[1..] by {
        assert level == [level[0]] + level[1..];
      }
      level[0].friends + NamesOf(level[1..])
  }

  /** `friends.find(friend => friend.name === name)`. */
  function Named(friends: seq<Friend>, name: string): (f: Friend)
    requires Known(friends, name)
    ensures f in friends && f.name == name
  {
    if friends[0].name == name then friends[0]
    else
      assert Known(friends[1..], name) by {
        var j :| 0 <= j < |friends| && friends[j].name == name;
        assert friends[1..][j - 1] == friends[j];
      }
      Named(friends[1..], name)
  }

  /** With unique names, the friend found by a name is the one carrying it. */
  lemma NamedUnique(friends: seq<Friend>, f: Friend)
    requires Consistent(friends) && f in friends
    ensures Named(friends, f.name) == f
  {
    var i :| 0 <= i < |friends| && friends[i] == f;
    var g := Named(friends, f.name);
    var j :| 0 <= j < |friends| && friends[j] == g;
    assert i == j;
  }

  /** `.map(friendName => friends.find(...))`. */
  function Lookup(friends: seq<Friend>, names: seq<string>): (r: seq<Friend>)
    requires forall n :: n in names ==> Known(friends, n)
    ensures |r| == |names|
    ensures forall k :: 0 <= k < |names| ==> r[k] == Named(friends, names[k])
    ensures forall f :: f in r ==> f in friends
  {
    seq(|names|, k requires 0 <= k < |names| => Named(friends, names[k]))
  }

  /**
   * `.filter((friend, index, self) => !invitedList.includes(friend) &&
   * self.indexOf(friend) === index)`: the first occurrence of every friend
   * not invited yet.
   */
  function Fresh(self: seq<Friend>, invited: seq<Friend>): (r: seq<Friend>)
    ensures Distinct(r)
    ensures forall f :: f in r <==> f in self && f !in invited
  {
    if |self| == 0 then []
    else
      var init, last := self[..|self| - 1], self[|self| - 1];
      assert self == init + [last];
      var kept := Fresh(init, invited);
      if last !in invited && last !in init then
        assert last !in kept;
        kept + [last]
      else kept
  }

  /** Some friend of the level lists the name of `f`. */
  predicate NamedBy(level: seq<Friend>, f: Friend)
  {
    exists g :: g in level && f.name in g.friends
  }

  /** The next level: the friends the level names, not yet invited, once each, sorted by name. */
  function NextLevel(friends: seq<Friend>, level: seq<Friend>, invited: seq<Friend>): (next: seq<Friend>)
    requires NamesKnown(friends)
    requires forall f :: f in level ==> f in friends
    ensures forall f :: f in next ==> f in friends && f !in invited
  {
    var found := Lookup(friends, NamesOf(level));
    var unseen := Fresh(found, invited);
    var next := SortBy(unseen, ByName);
    forall f | f in next ensures f in friends && f !in invited {
      assert f in multiset(unseen);
    }
    next
  }

  /**
   * The next level is sorted by name, holds no friend twice, and holds
   * exactly the friends not yet invited whose name the level lists.
   */
  lemma NextLevelMeans(friends: seq<Friend>, level: seq<Friend>, invited: seq<Friend>)
    requires Consistent(friends)
    requires forall f :: f in level ==> f in friends
    ensures SortedBy(NextLevel(friends, level, invited), ByName)
    ensures Distinct(NextLevel(friends, level, invited))
    ensures forall f :: f in NextLevel(friends, level, invited) <==> f in friends && f !in invited && NamedBy(level, f)
  {
    var names := NamesOf(level);
    var found := Lookup(friends, names);
    var unseen := Fresh(found, invited);
    var next := SortBy(unseen, ByName);
    assert next == NextLevel(friends, level, invited);
    assert Distinct(next) by {
      forall f ensures multiset(next)[f] <= 1 {
        assert multiset(next)[f] == multiset(unseen)[f];
      }
    }
    forall f ensures f in next <==> f in friends && f !in invited && NamedBy(level, f) {
      assert f in next <==> f in multiset(next);
      if f in friends && f.name in names {
        NamedUnique(friends, f);
        var k :| 0 <= k < |names| && names[k] == f.name;
        assert found[k] == f;
      }
      if f in found {
        var k :| 0 <= k < |found| && found[k] == f;
      }
    }
  }

  // ---------------------------------------------------------------------
  // The traversal

  /** The friends not yet invited. */
  ghost function Uninvited(friends: seq<Friend>, invited: seq<Friend>): set<Friend>
  {
    (set f | f in friends) - (set f | f in invited)
  }

  /**
   * The levels the `while` loop of `listOfInvited` pushes, from the level
   * `level` numbered `current` on, with `invited` already pushed: it stops
   * at an empty level or past the cap.
   */
  function Levels(friends: seq<Friend>, level: seq<Friend>, invited: seq<Friend>, current: int, limit: Limit): (levels: seq<seq<Friend>>)
    requires NamesKnown(friends)
    requires forall f :: f in level ==> f in friends && f !in invited
    decreases Uninvited(friends, invited)
  {
    if |level| == 0 || !Within(limit, current) then []
    else
      Shrinks(friends, level, invited);
      [level] + Levels(friends, NextLevel(friends, level, invited + level), invited + level, current + 1, limit)
  }

  /** The levels one after the other. */
  function Flatten(levels: seq<seq<Friend>>): seq<Friend>
  {
    if |levels| == 0 then [] else levels[0] + Flatten(levels[1..])
  }

  /** Pushing a non-empty level of friends not yet invited shrinks the friends not yet invited. */
  lemma Shrinks(friends: seq<Friend>, level: seq<Friend>, invited: seq<Friend>)
    requires |level| > 0 && level[0] in friends && level[0] !in invited
    ensures Uninvited(friends, invited + level) < Uninvited(friends, invited)
  {
    var before, after := Uninvited(friends, invited), Uninvited(friends, invited + level);
    assert after <= before by {
      forall f | f in after ensures f in before {
        assert f !in invited + level;
      }
    }
    assert level[0] in before && level[0] !in after;
  }

  /** The levels from a non-empty level go on from the next one. */
  lemma LevelsStep(friends: seq<Friend>, level: seq<Friend>, invited: seq<Friend>, current: int, limit: Limit)
    requires NamesKnown(friends)
    requires forall f :: f in level ==> f in friends && f !in invited
    requires |level| > 0 && Within(limit, current)
    ensures Flatten(Levels(friends, level, invited, current, limit)) ==
      level + Flatten(Levels(friends, NextLevel(friends, level, invited + level), invited + level, current + 1, limit))
  {
    Shrinks(friends, level, invited);
    var levels := Levels(friends, level, invited, current, limit);
    assert levels[0] == level;
    assert levels[1..] == Levels(friends, NextLevel(friends, level, invited + level), invited + level, current + 1, limit);
  }

  /** `invitedList` when the loop ends. */
  function Invited(friends: seq<Friend>, limit: Limit): seq<Friend>
    requires NamesKnown(friends)
  {
    Flatten(Levels(friends, FirstLevel(friends), [], 1, limit))
  }

  /** `invitedList.filter(filter.whatGender)`. */
  function Keep(s: seq<Friend>, filter: Filter): (r: seq<Friend>)
    ensures forall f :: f in r <==> f in s && WhatGender(filter, f)
  {
    if |s| == 0 then []
    else
      assert s == s[..|s| - 1] + [s[|s| - 1]];
      Keep(s[..|s| - 1], filter) + (if WhatGender(filter, s[|s| - 1]) then [s[|s| - 1]] else [])
  }

  /** The guests `listOfInvited` returns. */
  function Invitation(friends: seq<Friend>, filter: Filter, limit: Limit): seq<Friend>
    requires NamesKnown(friends)
  {
    Keep(Invited(friends, limit), filter)
  }

  // ---------------------------------------------------------------------
  // Properties of the traversal

  /** The loop stops at the first empty level: no pushed level is empty. */
  lemma {:induction false} LevelsNonEmpty(friends: seq<Friend>, level: seq<Friend>, invited: seq<Friend>, current: int, limit: Limit)
    requires NamesKnown(friends)
    requires forall f :: f in level ==> f in friends && f !in invited
    ensures forall k :: 0 <= k < |Levels(friends, level, invited, current, limit)| ==>
      |Levels(friends, level, invited, current, limit)[k]| > 0
    decreases Uninvited(friends, invited)
  {
    if |level| > 0 && Within(limit, current) {
      Shrinks(friends, level, invited);
      var pushed := invited + level;
      var next := NextLevel(friends, level, pushed);
      LevelsNonEmpty(friends, next, pushed, current + 1, limit);
      var rest := Levels(friends, next, pushed, current + 1, limit);
      var all := [level] + rest;
      assert Levels(friends, level, invited, current, limit) == all;
      forall k | 0 <= k < |all| ensures |all[k]| > 0 {
        if k > 0 {
          assert all[k] == rest[k - 1];
        }
      }
    }
  }

  /** Every level of a list of levels is sorted by name. */
  ghost predicate EverySorted(levels: seq<seq<Friend>>)
  {
    forall k :: 0 <= k < |levels| ==> SortedBy(levels[k], ByName)
  }

  /** Every level is sorted by name. */
  lemma {:induction false} LevelsSorted(friends: seq<Friend>, level: seq<Friend>, invited: seq<Friend>, current: int, limit: Limit)
    requires Consistent(friends)
    requires forall f :: f in level ==> f in friends && f !in invited
    requires SortedBy(level, ByName)
    ensures EverySorted(Levels(friends, level, invited, current, limit))
    decreases Uninvited(friends, invited)
  {
    if |level| > 0 && Within(limit, current) {
      Shrinks(friends, level, invited);
      var pushed := invited + level;
      var next := NextLevel(friends, level, pushed);
      assert SortedBy(next, ByName) by {
        NextLevelMeans(friends, level, pushed);
      }
      LevelsSorted(friends, next, pushed, current + 1, limit);
      var rest := Levels(friends, next, pushed, current + 1, limit);
      assert Levels(friends, level, invited, current, limit) == [level] + rest;
      EverySortedCons(level, rest);
    }
  }

  /** Every level `listOfInvited` pushes, from the best friends on, is sorted by name. */
  lemma InvitedLevelsSorted(friends: seq<Friend>, limit: Limit)
    requires Consistent(friends)
    ensures EverySorted(Levels(friends, FirstLevel(friends), [], 1, limit))
  {
    LevelsSorted(friends, FirstLevel(friends), [], 1, limit);
  }

  /** A sorted level in front of sorted levels. */
  lemma EverySortedCons(level: seq<Friend>, rest: seq<seq<Friend>>)
    requires SortedBy(level, ByName) && EverySorted(rest)
    ensures EverySorted([level] + rest)
  {
    var all := [level] + rest;
    forall k | 0 <= k < |all| ensures SortedBy(all[k], ByName) {
      if k > 0 {
        assert all[k] == rest[k - 1];
      }
    }
  }

  /** One turn of the loop of `listOfInvited` keeps its invariant and shrinks the friends not yet invited. */
  lemma LevelsAdvance(friends: seq<Friend>, level: seq<Friend>, invited: seq<Friend>, current: int, limit: Limit,
                      pushed: seq<Friend>, next: seq<Friend>)
    requires NamesKnown(friends)
    requires forall f :: f in level ==> f in friends && f !in invited
    requires |level| > 0 && Within(limit, current)
    requires pushed == invited + level && next == NextLevel(friends, level, pushed)
    ensures forall f :: f in next ==> f in friends && f !in pushed
    ensures pushed + Flatten(Levels(friends, next, pushed, current + 1, limit)) ==
      invited + Flatten(Levels(friends, level, invited, current, limit))
    ensures Uninvited(friends, pushed) < Uninvited(friends, invited)
  {
    Shrinks(friends, level, invited);
    var rest := Flatten(Levels(friends, next, pushed, current + 1, limit));
    var all := Flatten(Levels(friends, level, invited, current, limit));
    assert all == level + rest by {
      LevelsStep(friends, level, invited, current, limit);
    }
    AppendAssoc(invited, level, rest);
  }

  /** Concatenation is associative. */
  lemma AppendAssoc(a: seq<Friend>, b: seq<Friend>, c: seq<Friend>)
    ensures (a + b) + c == a + (b + c)
  {
  }

  /** Appending a list with nothing in common keeps a list free of repeats. */
  lemma DistinctAppend(a: seq<Friend>, b: seq<Friend>)
    requires Distinct(a) && Distinct(b)
    requires forall f :: f in b ==> f !in a
    ensures Distinct(a + b)
  {
    forall f ensures multiset(a + b)[f] <= 1 {
      assert multiset(a + b)[f] == multiset(a)[f] + multiset(b)[f];
      if f in b {
        assert f !in multiset(a);
      }
    }
  }

  /** Everyone named by a friend of `s` is in `t`. */
  ghost predicate ClosedWithin(friends: seq<Friend>, s: seq<Friend>, t: seq<Friend>)
    requires Consistent(friends)
  {
    forall f, n :: f in friends && f in s && n in f.friends ==> Named(friends, n) in t
  }

  /**
   * Everyone named by the pushed friends is pushed or in the next level,
   * when everyone named by the friends before the level was pushed or in it.
   */
  lemma ClosedStep(friends: seq<Friend>, level: seq<Friend>, invited: seq<Friend>)
    requires Consistent(friends)
    requires forall f :: f in level ==> f in friends && f !in invited
    requires forall f :: f in invited ==> f in friends
    requires ClosedWithin(friends, invited, invited + level)
    ensures ClosedWithin(friends, invited + level, invited + level + NextLevel(friends, level, invited + level))
  {
    var pushed := invited + level;
    var next := NextLevel(friends, level, pushed);
    NextLevelMeans(friends, level, pushed);
    forall f, n | f in pushed && n in f.friends
      ensures Named(friends, n) in pushed + next
    {
      var g := Named(friends, n);
      if f in level && g !in pushed {
        assert NamedBy(level, g);
      }
    }
  }

  /**
   * The invited list holds no friend twice and only friends: every level is
   * new to the ones before it.
   */
  lemma {:induction false} LevelsDistinct(friends: seq<Friend>, level: seq<Friend>, invited: seq<Friend>, current: int, limit: Limit)
    requires Consistent(friends)
    requires forall f :: f in level ==> f in friends && f !in invited
    requires Distinct(invited) && Distinct(level)
    ensures Distinct(invited + Flatten(Levels(friends, level, invited, current, limit)))
    ensures forall f :: f in Flatten(Levels(friends, level, invited, current, limit)) ==> f in friends
    decreases Uninvited(friends, invited)
  {
    var levels := Levels(friends, level, invited, current, limit);
    if |level| == 0 || !Within(limit, current) {
      assert invited + Flatten(levels) == invited;
    } else {
      var pushed := invited + level;
      var next := NextLevel(friends, level, pushed);
      LevelsAdvance(friends, level, invited, current, limit, pushed, next);
      NextLevelMeans(friends, level, pushed);
      DistinctAppend(invited, level);
      LevelsDistinct(friends, next, pushed, current + 1, limit);
      LevelsStep(friends, level, invited, current, limit);
    }
  }

  /**
   * Without a cap the traversal is closed: everyone named by an invited
   * friend is invited too. `named` are the friends named by `invited`
   * before the level, all of which are already pushed or in the level.
   */
  lemma {:induction false} UnlimitedIsClosed(friends: seq<Friend>, level: seq<Friend>, invited: seq<Friend>, current: int)
    requires Consistent(friends)
    requires forall f :: f in level ==> f in friends && f !in invited
    requires forall f :: f in invited ==> f in friends
    requires ClosedWithin(friends, invited, invited + level)
    ensures ClosedWithin(friends, invited + Flatten(Levels(friends, level, invited, current, Unlimited)),
                         invited + Flatten(Levels(friends, level, invited, current, Unlimited)))
    decreases Uninvited(friends, invited)
  {
    var levels := Levels(friends, level, invited, current, Unlimited);
    if |level| == 0 {
      assert invited + Flatten(levels) == invited + level;
    } else {
      var pushed := invited + level;
      var next := NextLevel(friends, level, pushed);
      LevelsAdvance(friends, level, invited, current, Unlimited, pushed, next);
      ClosedStep(friends, level, invited);
      UnlimitedIsClosed(friends, next, pushed, current + 1);
      var all := invited + Flatten(levels);
      assert all == pushed + Flatten(Levels(friends, next, pushed, current + 1, Unlimited));
    }
  }

  /**
   * Without a cap every best friend is invited, and so is everyone named
   * by an invited friend.
   */
  lemma InvitedUnlimited(friends: seq<Friend>)
    requires Consistent(friends)
    ensures forall f :: f in friends && f.best ==> f in Invited(friends, Unlimited)
    ensures forall f, n :: f in friends && f in Invited(friends, Unlimited) && n in f.friends ==>
      Named(friends, n) in Invited(friends, Unlimited)
  {
    var first := FirstLevel(friends);
    UnlimitedIsClosed(friends, first, [], 1);
    assert ClosedWithin(friends, Invited(friends, Unlimited), Invited(friends, Unlimited));
    assert [] + Flatten(Levels(friends, first, [], 1, Unlimited)) == Invited(friends, Unlimited);
    if |first| > 0 {
      LevelsStep(friends, first, [], 1, Unlimited);
    }
  }

  /** Nobody is invited twice, and only friends are invited. */
  lemma InvitedOnce(friends: seq<Friend>, limit: Limit)
    requires Consistent(friends)
    ensures Distinct(Invited(friends, limit))
    ensures forall f :: f in Invited(friends, limit) ==> f in friends
  {
    var first := FirstLevel(friends);
    assert Distinct(first) by {
      forall f ensures multiset(first)[f] <= 1 {
        assert multiset(first) == multiset(Bests(friends));
        BestsOnce(friends, f);
      }
    }
    LevelsDistinct(friends, first, [], 1, limit);
    assert [] + Invited(friends, limit) == Invited(friends, limit);
  }

  /** A friend occurs in the best-friend filter at most once, because names are unique. */
  lemma {:induction false} BestsOnce(friends: seq<Friend>, f: Friend)
    requires forall i, j :: 0 <= i < j < |friends| ==> friends[i].name != friends[j].name
    ensures multiset(Bests(friends))[f] <= 1
  {
    if |friends| > 0 {
      var init := friends[..|friends| - 1];
      BestsOnce(init, f);
      if f == friends[|friends| - 1] {
        assert f !in init;
        assert f !in Bests(init);
      }
    }
  }

  /** A cap below one invites nobody; with a cap, at most that many levels are pushed. */
  lemma CapBoundsLevels(friends: seq<Friend>, maxLevel: int)
    requires Consistent(friends)
    ensures maxLevel < 1 ==> Invited(friends, Upto(maxLevel)) == []
    ensures |Levels(friends, FirstLevel(friends), [], 1, Upto(maxLevel))| <= if maxLevel >= 1 then maxLevel else 0
  {
    LevelsCapped(friends, FirstLevel(friends), [], 1, maxLevel);
  }

  /** From level `current` on, a cap of `maxLevel` lets at most `maxLevel - current + 1` levels through. */
  lemma {:induction false} LevelsCapped(friends: seq<Friend>, level: seq<Friend>, invited: seq<Friend>, current: int, maxLevel: int)
    requires NamesKnown(friends)
    requires forall f :: f in level ==> f in friends && f !in invited
    ensures |Levels(friends, level, invited, current, Upto(maxLevel))| <=
      if maxLevel >= current then maxLevel - current + 1 else 0
    decreases Uninvited(friends, invited)
  {
    if |level| > 0 && Within(Upto(maxLevel), current) {
      Shrinks(friends, level, invited);
      var pushed := invited + level;
      var next := NextLevel(friends, level, pushed);
      LevelsCapped(friends, next, pushed, current + 1, maxLevel);
      assert Levels(friends, level, invited, current, Upto(maxLevel)) == [level] + Levels(friends, next, pushed, current + 1, Upto(maxLevel));
    }
  }

  /** Filtering a list with one more friend filters the list and then that friend. */
  lemma KeepSnoc(s: seq<Friend>, last: Friend, filter: Filter)
    ensures Keep(s + [last], filter) == Keep(s, filter) + (if WhatGender(filter, last) then [last] else [])
  {
    var t := s + [last];
    assert t[..|t| - 1] == s && t[|t| - 1] == last;
  }

  /** Filtering keeps the order: it distributes over concatenation. */
  lemma {:induction false} KeepConcat(a: seq<Friend>, b: seq<Friend>, filter: Filter)
    ensures Keep(a + b, filter) == Keep(a, filter) + Keep(b, filter)
  {
    if |b| == 0 {
      assert b == [] && a + b == a;
      assert Keep(b, filter) == [];
    } else {
      var init, last := b[..|b| - 1], b[|b| - 1];
      assert b == init + [last];
      KeepConcat(a, init, filter);
      AppendAssoc(a, init, [last]);
      KeepSnoc(a + init, last, filter);
      KeepSnoc(init, last, filter);
      var t := if WhatGender(filter, last) then [last] else [];
      AppendAssoc(Keep(a, filter), Keep(init, filter), t);
    }
  }

  /** `Filter` accepts everyone: the guests are the invited list as it is. */
  lemma {:induction false} KeepAll(s: seq<Friend>)
    ensures Keep(s, Filter) == s
  {
    if |s| > 0 {
      KeepAll(s[..|s| - 1]);
      assert s == s[..|s| - 1] + [s[|s| - 1]];
    }
  }

  // ---------------------------------------------------------------------
  // listOfInvited and the iterators

  /** `listOfInvited`: the `while` loop pushing level after level, then the gender filter. */
  method ListOfInvited(friends: seq<Friend>, filter: Filter, limit: Limit) returns (guests: seq<Friend>)
    requires NamesKnown(friends)
    ensures guests == Invitation(friends, filter, limit)
  {
    var lvlList := FirstLevel(friends);
    var currentLvl := 1;
    var invitedList := [];
    ghost var all := Invited(friends, limit);
    assert invitedList + Flatten(Levels(friends, lvlList, invitedList, currentLvl, limit)) == all;
    while 0 < |lvlList| && Within(limit, currentLvl)
      invariant forall f :: f in lvlList ==> f in friends && f !in invitedList
      invariant invitedList + Flatten(Levels(friends, lvlList, invitedList, currentLvl, limit)) == all
      decreases Uninvited(friends, invitedList)
    {
      ghost var level, invited, current := lvlList, invitedList, currentLvl;
      invitedList := invitedList + lvlList;
      lvlList := NextLevel(friends, lvlList, invitedList);
      currentLvl := currentLvl + 1;
      LevelsAdvance(friends, level, invited, current, limit, invitedList, lvlList);
    }
    assert Levels(friends, lvlList, invitedList, currentLvl, limit) == [];
    assert invitedList + Flatten([]) == invitedList;
    guests := Keep(invitedList, filter);
  }

  /** The object `Iterator` builds: the guests still to hand out. */
  class Iterator {
    var guests: seq<Friend>

    constructor (guests: seq<Friend>)
      ensures this.guests == guests
    {
      this.guests := guests;
    }

    /** `done`: no guest is left. */
    method Done() returns (done: bool)
      ensures done <==> |guests| == 0
    {
      done := |guests| == 0;
    }

    /** `next`: `null` when done, otherwise the first guest, which is removed. */
    method Next() returns (guest: Option<Friend>)
      modifies this
      ensures old(guests) == [] ==> guest == None && guests == []
      ensures old(guests) != [] ==> guest == Some(old(guests)[0]) && guests == old(guests)[1..]
    {
      var done := Done();
      if done {
        return None;
      }
      guest := Some(guests[0]);
      guests := guests[1..];
    }
  }

  /** `new Iterator(friends, filter)`: a `TypeError` unless `filter` is a `Filter`. */
  method NewIterator(friends: seq<Friend>, filter: Option<Filter>) returns (r: Result<Iterator>)
    requires NamesKnown(friends)
    ensures filter.None? ==> r == Failure(TypeError)
    ensures filter.Some? ==>
      r.Success? && fresh(r.value) && r.value.guests == Invitation(friends, filter.value, Unlimited)
  {
    if filter.None? {
      return Failure(TypeError);
    }
    var guests := ListOfInvited(friends, filter.value, Unlimited);
    var made := new Iterator(guests);
    r := Success(made);
  }

  /**
   * `new LimitedIterator(friends, filter, maxLevel)`: runs the `Iterator`
   * constructor (and its check) and then replaces the guests by the capped
   * list. A missing `maxLevel` takes `listOfInvited`'s default, `Infinity`.
   */
  method NewLimitedIterator(friends: seq<Friend>, filter: Option<Filter>, maxLevel: Option<int>) returns (r: Result<Iterator>)
    requires NamesKnown(friends)
    ensures filter.None? ==> r == Failure(TypeError)
    ensures filter.Some? && maxLevel.None? ==>
      r.Success? && fresh(r.value) && r.value.guests == Invitation(friends, filter.value, Unlimited)
    ensures filter.Some? && maxLevel.Some? ==>
      r.Success? && fresh(r.value) && r.value.guests == Invitation(friends, filter.value, Upto(maxLevel.value))
  {
    r := NewIterator(friends, filter);
    if r.Failure? {
      return;
    }
    var limit := if maxLevel.Some? then Upto(maxLevel.value) else Unlimited;
    var guests := ListOfInvited(friends, filter.value, limit);
    r.value.guests := guests;
  }
}
