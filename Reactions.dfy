/**
 * The gateway's reaction store: for each message id, the emojis used on it and,
 * for each emoji, the names of the users who reacted with it, in the order they
 * reacted. `Added` and `Removed` are the new store after `addReaction` and
 * `removeReaction`.
 */
module Reactions {
  import OrderedMaps

  /** The reactions of one message: emoji to user names. */
  type Aggregate = map<string, seq<string>>

  /** Message id to the reactions of that message. */
  type Store = map<int, Aggregate>

  /** The names that reacted to message `mid` with `emoji`, empty when there is no entry. */
  function Reactors(store: Store, mid: int, emoji: string): seq<string> {
    if mid in store && emoji in store[mid] then store[mid][emoji] else []
  }

  /**
   * No per-message map is empty, no name list is empty, and nobody appears twice
   * in a list: the shape `addReaction` and `removeReaction` maintain.
   */
  ghost predicate WellFormed(store: Store) {
    forall mid :: mid in store ==>
      && |store[mid]| > 0
      && forall emoji :: emoji in store[mid] ==>
        |store[mid][emoji]| > 0 && OrderedMaps.Distinct(store[mid][emoji])
  }

  /** `addReaction`: create the message's map and the emoji's list when missing, push the name unless present. */
  function Added(store: Store, mid: int, emoji: string, name: string): (r: Store)
    ensures mid in r && emoji in r[mid]
  {
    var reactions := if mid in store then store[mid] else map[];
    var users := if emoji in reactions then reactions[emoji] else [];
    store[mid := reactions[emoji := if name in users then users else users + [name]]]
  }

  /** `users.indexOf(name)`: the first position of `name`, or -1. */
  function IndexOf(users: seq<string>, name: string): (i: int)
    ensures -1 <= i < |users|
    ensures i == -1 <==> name !in users
    ensures i >= 0 ==> users[i] == name && name !in users[..i]
  {
    if users == [] then -1
    else if users[0] == name then 0
    else
      var k := IndexOf(users[1..], name);
      if k == -1 then -1
      else
        assert users[..k + 1] == [users[0]] + users[1..][..k];
        k + 1
  }

  /**
   * The reactions of the message once `removeReaction` has run on them: the
   * name spliced out of the emoji's list if it is there, the emoji dropped once
   * its list is empty. This is also the payload of `reactionRemoved`.
   */
  function RemovedAggregate(reactions: Aggregate, emoji: string, name: string): Aggregate
    requires emoji in reactions
  {
    var users := reactions[emoji];
    var index := IndexOf(users, name);
    var rest := if index > -1 then users[..index] + users[index + 1..] else users;
    if |rest| == 0 then reactions - {emoji} else reactions[emoji := rest]
  }

  /** `removeReaction` on a message and emoji that have an entry: the message is dropped once it has no emoji left. */
  function Removed(store: Store, mid: int, emoji: string, name: string): Store
    requires mid in store && emoji in store[mid]
  {
    var reactions := RemovedAggregate(store[mid], emoji, name);
    if |reactions| == 0 then store - {mid} else store[mid := reactions]
  }

  /** Adding keeps the store well formed. */
  lemma AddedWellFormed(store: Store, mid: int, emoji: string, name: string)
    requires WellFormed(store)
    ensures WellFormed(Added(store, mid, emoji, name))
  {
    var users := Reactors(store, mid, emoji);
    if name !in users {
      var s := users + [name];
      forall i, j | 0 <= i < j < |s| ensures s[i] != s[j] {
        if j == |users| {
          assert s[i] == users[i];
        }
      }
    }
  }

  /**
   * After an add the name is among the reactors exactly once; the names that
   * were there keep their places, and at most the new one is appended.
   */
  lemma AddedReactors(store: Store, mid: int, emoji: string, name: string)
    requires WellFormed(store)
    ensures var before := Reactors(store, mid, emoji);
      var after := Reactors(Added(store, mid, emoji, name), mid, emoji);
      && name in after
      && before <= after
      && |after| <= |before| + 1
      && OrderedMaps.Distinct(after)
  {
    AddedWellFormed(store, mid, emoji, name);
  }

  /** Adding touches only the one message and emoji. */
  lemma AddedOthersUnchanged(store: Store, mid: int, emoji: string, name: string, m: int, e: string)
    requires m != mid || e != emoji
    ensures Reactors(Added(store, mid, emoji, name), m, e) == Reactors(store, m, e)
  {
  }

  /** Adding the same reaction twice is the same as adding it once. */
  lemma AddedIdempotent(store: Store, mid: int, emoji: string, name: string)
    ensures Added(Added(store, mid, emoji, name), mid, emoji, name) == Added(store, mid, emoji, name)
  {
    var once := Added(store, mid, emoji, name);
    assert name in once[mid][emoji];
    assert once[mid][emoji := once[mid][emoji]] == once[mid];
    assert once[mid := once[mid]] == once;
  }

  lemma {:induction false} SpliceIsWithout(users: seq<string>, name: string)
    requires OrderedMaps.Distinct(users) && name in users
    ensures var i := IndexOf(users, name);
      users[..i] + users[i + 1..] == OrderedMaps.Without(users, name)
  {
    OrderedMaps.WithoutAt(users, IndexOf(users, name));
  }

  /** Every list of a message's map is non-empty and without repeats. */
  ghost predicate ListsWellFormed(reactions: Aggregate) {
    forall emoji :: emoji in reactions ==> |reactions[emoji]| > 0 && OrderedMaps.Distinct(reactions[emoji])
  }

  /** Splicing a name out of a list without repeats leaves a list without repeats. */
  lemma SpliceDistinct(users: seq<string>, name: string)
    requires OrderedMaps.Distinct(users)
    ensures var index := IndexOf(users, name);
      OrderedMaps.Distinct(if index > -1 then users[..index] + users[index + 1..] else users)
  {
    if name in users {
      SpliceIsWithout(users, name);
      OrderedMaps.WithoutDistinct(users, name);
    }
  }

  /** Removing from one message's map keeps its lists non-empty and without repeats. */
  lemma RemovedAggregateWellFormed(reactions: Aggregate, emoji: string, name: string)
    requires ListsWellFormed(reactions) && emoji in reactions
    ensures ListsWellFormed(RemovedAggregate(reactions, emoji, name))
  {
    var users := reactions[emoji];
    var index := IndexOf(users, name);
    var rest := if index > -1 then users[..index] + users[index + 1..] else users;
    SpliceDistinct(users, name);
    var r := RemovedAggregate(reactions, emoji, name);
    if |rest| == 0 {
      assert r == reactions - {emoji};
    } else {
      assert r == reactions[emoji := rest];
    }
    forall e | e in r ensures |r[e]| > 0 && OrderedMaps.Distinct(r[e]) {
      if e != emoji {
        assert r[e] == reactions[e];
      } else {
        assert r[e] == rest;
      }
    }
  }

  /** Removing keeps the store well formed. */
  lemma RemovedWellFormed(store: Store, mid: int, emoji: string, name: string)
    requires WellFormed(store) && mid in store && emoji in store[mid]
    ensures WellFormed(Removed(store, mid, emoji, name))
  {
    assert ListsWellFormed(store[mid]);
    RemovedAggregateWellFormed(store[mid], emoji, name);
    var r := Removed(store, mid, emoji, name);
    forall m | m in r ensures |r[m]| > 0 && ListsWellFormed(r[m]) {
      if m != mid {
        assert r[m] == store[m];
      }
    }
  }

  /** The list left for the emoji: the name spliced out, or the list as it was. */
  lemma RemainingIsWithout(store: Store, mid: int, emoji: string, name: string)
    requires WellFormed(store) && mid in store && emoji in store[mid]
    ensures var users := store[mid][emoji];
      var index := IndexOf(users, name);
      (if index > -1 then users[..index] + users[index + 1..] else users) == OrderedMaps.Without(users, name)
  {
    var users := store[mid][emoji];
    if name in users {
      SpliceIsWithout(users, name);
    } else {
      OrderedMaps.WithoutAbsent(users, name);
    }
  }

  /**
   * On a well-formed store, removing takes out exactly that name and keeps the
   * other names in their order.
   */
  lemma RemovedReactors(store: Store, mid: int, emoji: string, name: string)
    requires WellFormed(store) && mid in store && emoji in store[mid]
    ensures Reactors(Removed(store, mid, emoji, name), mid, emoji) == OrderedMaps.Without(store[mid][emoji], name)
    ensures name !in Reactors(Removed(store, mid, emoji, name), mid, emoji)
  {
    RemainingIsWithout(store, mid, emoji, name);
    var rest := OrderedMaps.Without(store[mid][emoji], name);
    var reactions := RemovedAggregate(store[mid], emoji, name);
    if |rest| == 0 {
      assert emoji !in reactions;
    } else {
      assert reactions[emoji] == rest;
      assert Removed(store, mid, emoji, name)[mid] == reactions;
    }
  }

  /** Removing touches only the one message and emoji. */
  lemma RemovedOthersUnchanged(store: Store, mid: int, emoji: string, name: string, m: int, e: string)
    requires mid in store && emoji in store[mid]
    requires m != mid || e != emoji
    ensures Reactors(Removed(store, mid, emoji, name), m, e) == Reactors(store, m, e)
  {
    var reactions := RemovedAggregate(store[mid], emoji, name);
    if m == mid {
      assert e != emoji;
      assert e in reactions <==> e in store[mid];
      assert e in reactions ==> reactions[e] == store[mid][e];
    }
  }

  /** Removing a reaction one had not made changes nothing. */
  lemma RemovedAbsent(store: Store, mid: int, emoji: string, name: string)
    requires WellFormed(store) && mid in store && emoji in store[mid]
    requires name !in store[mid][emoji]
    ensures Removed(store, mid, emoji, name) == store
    ensures RemovedAggregate(store[mid], emoji, name) == store[mid]
  {
    assert store[mid][emoji := store[mid][emoji]] == store[mid];
    assert store[mid := store[mid]] == store;
  }

  /** Splicing out a name pushed last gives back the list it was pushed on. */
  lemma SpliceLast(users: seq<string>, name: string)
    requires name !in users
    ensures IndexOf(users + [name], name) == |users|
    ensures (users + [name])[..|users|] + (users + [name])[|users| + 1..] == users
  {
    var s := users + [name];
    assert s[..|users|] == users;
  }

  /** Removing from a message's map the name just pushed on an emoji's list gives back the map it had. */
  lemma RemovedAggregateUndoesPush(before: Aggregate, emoji: string, name: string)
    requires emoji in before ==> |before[emoji]| > 0 && name !in before[emoji]
    ensures var users := if emoji in before then before[emoji] else [];
      RemovedAggregate(before[emoji := users + [name]], emoji, name) == before
  {
    var users := if emoji in before then before[emoji] else [];
    var pushed := before[emoji := users + [name]];
    assert pushed[emoji] == users + [name];
    SpliceLast(users, name);
    assert RemovedAggregate(pushed, emoji, name) ==
      if |users| == 0 then pushed - {emoji} else pushed[emoji := users];
    if users == [] {
      assert pushed - {emoji} == before;
    } else {
      assert pushed[emoji := users] == before;
    }
  }

  /** Adding a reaction and then removing it gives back the store as it was. */
  lemma RemoveUndoesAdd(store: Store, mid: int, emoji: string, name: string)
    requires WellFormed(store)
    requires name !in Reactors(store, mid, emoji)
    ensures var added := Added(store, mid, emoji, name);
      Removed(added, mid, emoji, name) == store
  {
    RemoveUndoesAddNonEmpty(store, mid, emoji, name);
  }

  /** `RemoveUndoesAdd` needs of the store only that the touched map and list are not empty. */
  lemma RemoveUndoesAddNonEmpty(store: Store, mid: int, emoji: string, name: string)
    requires mid in store ==> |store[mid]| > 0 && (emoji in store[mid] ==> |store[mid][emoji]| > 0)
    requires name !in Reactors(store, mid, emoji)
    ensures var added := Added(store, mid, emoji, name);
      Removed(added, mid, emoji, name) == store
  {
    var before := if mid in store then store[mid] else map[];
    var users := if emoji in before then before[emoji] else [];
    assert users == Reactors(store, mid, emoji);
    var added := Added(store, mid, emoji, name);
    assert added == store[mid := before[emoji := users + [name]]];
    RemovedAggregateUndoesPush(before, emoji, name);
    assert RemovedAggregate(added[mid], emoji, name) == before;
    if mid in store {
      assert added[mid := store[mid]] == store;
    } else {
      assert added - {mid} == store;
    }
  }

  /** Two users react with the same emoji, then the first takes it back: only the second is left. */
  lemma TwoUsersThenOneRemoves()
    ensures var thumbsUp := "\U{1F44D}";
      var s1 := Added(map[], 1, thumbsUp, "alice");
      var s2 := Added(s1, 1, thumbsUp, "bob");
      && Reactors(s2, 1, thumbsUp) == ["alice", "bob"]
      && 1 in s2 && thumbsUp in s2[1]
      && Reactors(Removed(s2, 1, thumbsUp, "alice"), 1, thumbsUp) == ["bob"]
  {
    var thumbsUp := "\U{1F44D}";
    var s2 := Added(Added(map[], 1, thumbsUp, "alice"), 1, thumbsUp, "bob");
    assert "bob" != "alice";
    assert IndexOf(["alice", "bob"], "alice") == 0;
    assert ["alice", "bob"][1..] == ["bob"];
  }

  /**
   * The steps of `addReaction` on the store: the message's map and the emoji's
   * list created when missing, the name pushed unless already there. The
   * message's map is shared with the store, so both see the push; `payload`
   * is the copy of that map broadcast afterwards.
   */
  method AddReaction(store: Store, mid: int, emoji: string, name: string) returns (next: Store, payload: Aggregate)
    ensures next == Added(store, mid, emoji, name)
    ensures mid in next && payload == next[mid]
    ensures WellFormed(store) ==> WellFormed(next)
  {
    next := store;
    if mid !in next {
      next := next[mid := map[]];
    }
    var reactions := next[mid];
    ghost var before := reactions;
    if emoji !in reactions {
      reactions := reactions[emoji := []];
    }
    var users := reactions[emoji];
    if name !in users {
      users := users + [name];
    }
    assert reactions[emoji := users] == before[emoji := users];
    reactions := reactions[emoji := users];
    assert next[mid := reactions] == store[mid := reactions];
    next := next[mid := reactions];
    if WellFormed(store) {
      AddedWellFormed(store, mid, emoji, name);
    }
    payload := ReactionsObject(reactions);
  }

  /**
   * The steps of `removeReaction` once the message and the emoji have an
   * entry: the name found with `indexOf` and spliced out, the emoji deleted
   * once its list is empty, then the message once its map is empty.
   * `payload` is the copy of the message's map, as it is left, broadcast
   * afterwards.
   */
  method RemoveReaction(store: Store, mid: int, emoji: string, name: string) returns (next: Store, payload: Aggregate)
    requires mid in store && emoji in store[mid]
    ensures next == Removed(store, mid, emoji, name)
    ensures payload == RemovedAggregate(store[mid], emoji, name)
    ensures WellFormed(store) ==> WellFormed(next)
  {
    var reactions := store[mid];
    var users := reactions[emoji];
    var index := IndexOf(users, name);
    if index > -1 {
      users := users[..index] + users[index + 1..];
      reactions := reactions[emoji := users];
    } else {
      assert reactions[emoji := users] == reactions;
    }
    if |users| == 0 {
      assert reactions - {emoji} == store[mid] - {emoji};
      reactions := reactions - {emoji};
    }
    assert reactions == RemovedAggregate(store[mid], emoji, name);
    if |reactions| == 0 {
      next := store - {mid};
    } else {
      next := store[mid := reactions];
    }
    if WellFormed(store) {
      RemovedWellFormed(store, mid, emoji, name);
    }
    payload := ReactionsObject(reactions);
  }

  /**
   * The `forEach` that copies the emoji map into the plain object sent to the
   * clients: the object has the same entries as the map.
   */
  method ReactionsObject(reactions: Aggregate) returns (obj: Aggregate)
    ensures obj == reactions
  {
    obj := map[];
    var pending := reactions.Keys;
    while pending != {}
      invariant pending <= reactions.Keys
      invariant forall k :: k in obj <==> k in reactions && k !in pending
      invariant forall k :: k in obj ==> obj[k] == reactions[k]
      decreases |pending|
    {
      var emojiKey :| emojiKey in pending;
      obj := obj[emojiKey := reactions[emojiKey]];
      pending := pending - {emojiKey};
    }
  }
}
