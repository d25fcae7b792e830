/** The server's cipher choice: preference lists with equal-preference groups, and ssl3_choose_cipher. */
module CipherChoice {
  import opened Common

  datatype Cipher = Cipher(id: nat, minVersion: nat, maxVersion: nat, mkey: bv32, auth: bv32)

  /** ssl_cipher_preference_list_st: `inGroup[i]` says that cipher i is not the last one of its group. */
  datatype Preference = Preference(ciphers: seq<Cipher>, inGroup: seq<bool>)
  {
    predicate Valid() { |inGroup| == |ciphers| }
  }

  /** What the handshake supports: the version, the key exchanges and the authentication methods. */
  datatype Support = Support(version: nat, maskK: bv32, maskA: bv32)

  predicate Compatible(c: Cipher, s: Support)
  {
    c.minVersion <= s.version <= c.maxVersion && c.mkey & s.maskK != 0 && c.auth & s.maskA != 0
  }

  predicate Usable(c: Cipher, s: Support, allow: seq<Cipher>) { Compatible(c, s) && c in allow }

  /** The first position of a cipher in a list. */
  function Find(list: seq<Cipher>, c: Cipher): (r: Option<nat>)
    ensures r.Some? <==> c in list
    ensures r.Some? ==> r.value < |list| && list[r.value] == c && forall k :: 0 <= k < r.value ==> list[k] != c
  {
    if list == [] then None
    else if list[0] == c then Some(0)
    else match Find(list[1..], c) case None => None case Some(k) => Some(k + 1)
  }

  function Rank(list: seq<Cipher>, c: Cipher): nat
    requires c in list
  {
    Find(list, c).value
  }

  /** No group ends between i and j: for i <= j they belong to one group. */
  predicate Together(inGroup: seq<bool>, i: nat, j: nat)
    requires j <= |inGroup|
  {
    forall k :: i <= k < j ==> inGroup[k]
  }

  /** The group of position i has a last element. */
  ghost predicate Closed(inGroup: seq<bool>, i: nat)
  {
    exists e :: i <= e < |inGroup| && Together(inGroup, i, e) && !inGroup[e]
  }

  predicate SameGroup(inGroup: seq<bool>, i: nat, j: nat)
    requires i < |inGroup| && j < |inGroup|
  {
    if i <= j then Together(inGroup, i, j) else Together(inGroup, j, i)
  }

  /** `c` is the right choice: it comes from the group of some position i that no earlier group with a usable
      cipher precedes, and no usable cipher of that group is listed earlier by the other side. */
  ghost predicate RightChoice(prio: seq<Cipher>, inGroup: seq<bool>, allow: seq<Cipher>, s: Support, c: Cipher)
    requires |inGroup| == |prio|
  {
    exists i :: BestAt(prio, inGroup, allow, s, c, i)
  }

  ghost predicate BestAt(prio: seq<Cipher>, inGroup: seq<bool>, allow: seq<Cipher>, s: Support, c: Cipher, i: nat)
    requires |inGroup| == |prio|
  {
    && i < |prio| && prio[i] == c && Usable(c, s, allow) && Closed(inGroup, i)
    && (forall j :: 0 <= j < i && Usable(prio[j], s, allow) ==> SameGroup(inGroup, j, i))
    && (forall j :: 0 <= j < |prio| && SameGroup(inGroup, j, i) && Usable(prio[j], s, allow) ==> Rank(allow, c) <= Rank(allow, prio[j]))
  }

  /** The loop of ssl3_choose_cipher over the preferred side's list. */
  method ChooseFrom(prio: seq<Cipher>, inGroup: seq<bool>, allow: seq<Cipher>, s: Support) returns (choice: Option<Cipher>)
    requires |inGroup| == |prio|
    ensures choice.Some? ==> RightChoice(prio, inGroup, allow, s, choice.value)
    ensures choice.None? <==> forall i :: 0 <= i < |prio| && Usable(prio[i], s, allow) ==> !Closed(inGroup, i)
  {
    hide Find, Compatible;
    var groupMin: int := -1;
    ghost var best: nat := 0;
    for i := 0 to |prio|
      invariant groupMin == -1 ==> forall k :: 0 <= k < i ==> !Usable(prio[k], s, allow)
      invariant groupMin != -1 ==> best < i && Usable(prio[best], s, allow) && groupMin == Rank(allow, prio[best])
      invariant forall k :: 0 <= k < i && Usable(prio[k], s, allow) ==> Together(inGroup, k, i) && groupMin <= Rank(allow, prio[k])
      invariant groupMin >= -1
    {
      var c := prio[i];
      var index := Find(allow, c);
      if Compatible(c, s) && index.Some? {
        if inGroup[i] {
          // The rest of the group may hold a better one.
          if groupMin == -1 || groupMin > index.value {
            groupMin, best := index.value, i;
          }
        } else {
          if groupMin != -1 && groupMin < index.value {
            Leave(prio, inGroup, allow, s, i, best);
            return Some(allow[groupMin]);
          }
          Leave(prio, inGroup, allow, s, i, i);
          return Some(allow[index.value]);
        }
      }
      if !inGroup[i] && groupMin != -1 {
        // The group ends, and holds a usable cipher.
        Leave(prio, inGroup, allow, s, i, best);
        return Some(allow[groupMin]);
      }
    }
    NothingClosed(prio, inGroup, allow, s);
    return None;
  }

  /** A group ends at position i, all usable ciphers so far belong to it, and `best` has the lowest rank. */
  lemma Leave(prio: seq<Cipher>, inGroup: seq<bool>, allow: seq<Cipher>, s: Support, i: nat, best: nat)
    requires |inGroup| == |prio| && best <= i < |prio| && !inGroup[i] && Usable(prio[best], s, allow)
    requires forall k :: 0 <= k < i && Usable(prio[k], s, allow) ==> Together(inGroup, k, i)
    requires forall k :: 0 <= k <= i && Usable(prio[k], s, allow) ==> Rank(allow, prio[best]) <= Rank(allow, prio[k])
    ensures RightChoice(prio, inGroup, allow, s, prio[best])
  {
    hide Find;
    assert Together(inGroup, best, i);
    assert Closed(inGroup, best);
    forall j | 0 <= j < |prio| && SameGroup(inGroup, j, best) && Usable(prio[j], s, allow)
      ensures Rank(allow, prio[best]) <= Rank(allow, prio[j])
    {
    }
    assert BestAt(prio, inGroup, allow, s, prio[best], best);
  }

  /** Any right choice is in both lists, is for the version, and has a key exchange and an authentication in common
      with what is supported. */
  lemma ChoiceMeets(prio: seq<Cipher>, inGroup: seq<bool>, allow: seq<Cipher>, s: Support, c: Cipher)
    requires |inGroup| == |prio| && RightChoice(prio, inGroup, allow, s, c)
    ensures c in prio && c in allow && c.minVersion <= s.version <= c.maxVersion && c.mkey & s.maskK != 0 && c.auth & s.maskA != 0
  {
    hide Together, Closed, SameGroup;
  }

  /** And nothing is chosen only if each cipher of both lists misses the version, or has no key exchange or no
      authentication in common with what is supported, or is in a group without an end. */
  lemma NothingMeets(prio: seq<Cipher>, inGroup: seq<bool>, allow: seq<Cipher>, s: Support, i: nat)
    requires |inGroup| == |prio| && forall k :: 0 <= k < |prio| && Usable(prio[k], s, allow) ==> !Closed(inGroup, k)
    requires i < |prio| && prio[i] in allow && Closed(inGroup, i)
    ensures var c := prio[i]; s.version < c.minVersion || s.version > c.maxVersion || c.mkey & s.maskK == 0 || c.auth & s.maskA == 0
  {
    hide Closed;
    assert !Usable(prio[i], s, allow);
  }

  lemma NothingClosed(prio: seq<Cipher>, inGroup: seq<bool>, allow: seq<Cipher>, s: Support)
    requires |inGroup| == |prio|
    requires forall k :: 0 <= k < |prio| && Usable(prio[k], s, allow) ==> Together(inGroup, k, |prio|)
    ensures forall i :: 0 <= i < |prio| && Usable(prio[i], s, allow) ==> !Closed(inGroup, i)
  {
    hide Usable;
  }

  /** A list whose last flag ends a group has only closed groups. */
  lemma {:induction false} LastEndsAll(inGroup: seq<bool>, i: nat)
    requires i < |inGroup| && !inGroup[|inGroup| - 1]
    ensures Closed(inGroup, i)
    decreases |inGroup| - i
  {
    if !inGroup[i] {
      assert Together(inGroup, i, i);
    } else {
      LastEndsAll(inGroup, i + 1);
      var e :| i + 1 <= e < |inGroup| && Together(inGroup, i + 1, e) && !inGroup[e];
      assert Together(inGroup, i, e);
    }
  }

  /** ssl3_choose_cipher. In server-preference mode with well-ended groups the choice is the usable cipher that
      the client lists first among the first group with any usable one; in client-preference mode it is the
      client's first usable cipher; and there is no choice exactly when nothing is usable. */
  method ChooseCipher(serverPreference: bool, server: Preference, client: seq<Cipher>, s: Support) returns (choice: Option<Cipher>)
    requires server.Valid()
    ensures serverPreference && choice.Some? ==> RightChoice(server.ciphers, server.inGroup, client, s, choice.value)
    ensures serverPreference ==>
      (choice.None? <==> forall i :: 0 <= i < |server.ciphers| && Usable(server.ciphers[i], s, client) ==> !Closed(server.inGroup, i))
    ensures serverPreference && (server.ciphers == [] || !server.inGroup[|server.ciphers| - 1]) ==>
      (choice.None? <==> forall c :: c in server.ciphers ==> !Usable(c, s, client))
    ensures !serverPreference && choice.Some? ==>
      exists i :: 0 <= i < |client| && client[i] == choice.value && Usable(client[i], s, server.ciphers)
                  && forall j :: 0 <= j < i ==> !Usable(client[j], s, server.ciphers)
    ensures !serverPreference ==> (choice.None? <==> forall c :: c in client ==> !Usable(c, s, server.ciphers))
  {
    hide Usable;
    if serverPreference {
      choice := ChooseFrom(server.ciphers, server.inGroup, client, s);
      if server.ciphers != [] && !server.inGroup[|server.ciphers| - 1] {
        forall i | 0 <= i < |server.ciphers| ensures Closed(server.inGroup, i) { LastEndsAll(server.inGroup, i); }
      }
    } else {
      var noGroups := seq(|client|, _ => false);
      choice := ChooseFrom(client, noGroups, server.ciphers, s);
      forall i | 0 <= i < |client| ensures Closed(noGroups, i) { assert Together(noGroups, i, i); }
      if choice.Some? {
        ghost var i :| BestAt(client, noGroups, server.ciphers, s, choice.value, i);
        FirstOfSingles(client, noGroups, server.ciphers, s, choice.value, i);
      }
    }
  }

  /** Without groups the best position is the first usable one. */
  lemma FirstOfSingles(prio: seq<Cipher>, inGroup: seq<bool>, allow: seq<Cipher>, s: Support, c: Cipher, i: nat)
    requires |inGroup| == |prio| && (forall k :: 0 <= k < |prio| ==> !inGroup[k]) && BestAt(prio, inGroup, allow, s, c, i)
    ensures forall j :: 0 <= j < i ==> !Usable(prio[j], s, allow)
  {
    hide Usable, Find;
    forall j | 0 <= j < i ensures !Usable(prio[j], s, allow) {
      assert !SameGroup(inGroup, j, i) by { assert !inGroup[j]; }
    }
  }

  /** Without the condition on the last flag the code can find nothing although a cipher is usable: a single
      usable cipher flagged as being inside a group. */
  method UnendedGroup(c: Cipher, s: Support) returns (choice: Option<Cipher>)
    requires Compatible(c, s)
    ensures Usable(c, s, [c]) && choice == None
  {
    choice := ChooseCipher(true, Preference([c], [true]), [c], s);
    assert !Closed([true], 0);
    assert forall other :: !RightChoice([c], [true], [c], s, other);
  }
}
