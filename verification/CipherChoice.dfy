/** Choosing the cipher on the server (BoringSSL/ssl/handshake_server.cc:357-424,
    BoringSSL/ssl/internal.h:1775-1808). */
module CipherChoice {
  import opened Wrappers

  /** A cipher by its number; whether it is usable depends on the version and the certificate. */
  type Cipher = nat

  /** `sk_SSL_CIPHER_find`: the first position of `c`. */
  function Find(list: seq<Cipher>, c: Cipher): (r: Option<nat>)
    ensures r.Some? ==> r.value < |list| && list[r.value] == c && forall k :: 0 <= k < r.value ==> list[k] != c
    ensures r.None? ==> c !in list
  {
    if list == [] then None
    else if list[0] == c then Some(0)
    else match Find(list[1..], c) { case None => None case Some(k) => Some(k + 1) }
  }

  /** What the negotiation works on: the list that decides the order, the list that allows, and
      which entries of the first are followed by others of the same preference. */
  datatype Lists = Lists(prio: seq<Cipher>, allow: seq<Cipher>, inGroup: Option<seq<bool>>, usable: Cipher -> bool) {
    predicate Valid() {
      inGroup.Some? ==> |inGroup.value| == |prio|
    }

    predicate Common(i: nat)
      requires i < |prio|
    {
      usable(prio[i]) && prio[i] in allow
    }

    /** The entry at `i` is not the last of its group. */
    predicate GoesOn(i: nat)
      requires Valid() && i < |prio|
    {
      inGroup.Some? && inGroup.value[i]
    }

    /** `j` is in the group of `i`, or later in the list of the same group. */
    predicate SameGroup(i: nat, j: nat)
      requires Valid() && i <= j < |prio|
    {
      forall k :: i <= k < j ==> GoesOn(k)
    }

    /** The first usable common cipher, which decides the group. */
    predicate FirstCommon(i: nat)
      requires i < |prio|
    {
      Common(i) && forall k :: 0 <= k < i ==> !Common(k)
    }

    /** Its group ends within the list, as the preference lists guarantee. */
    predicate Closed(i: nat)
      requires Valid() && i < |prio|
    {
      exists j :: i <= j < |prio| && !GoesOn(j)
    }

    function Rank(i: nat): nat
      requires i < |prio| && prio[i] in allow
    {
      Find(allow, prio[i]).value
    }

    /** `c` is the choice: in the group of the first common cipher, the one that the other list
        puts first. */
    ghost predicate Best(c: Cipher)
      requires Valid()
    {
      exists f, b :: 0 <= f <= b < |prio| && prio[b] == c && BestAt(f, b)
    }

    ghost predicate BestAt(f: nat, b: nat)
      requires Valid() && f <= b < |prio|
    {
      && FirstCommon(f) && SameGroup(f, b) && Common(b)
      && forall j :: f <= j < |prio| && SameGroup(f, j) && Common(j) ==> Rank(b) <= Rank(j)
    }
  }

  /** Which of the lists of both sides decides the order. */
  function Order(client: seq<Cipher>, server: seq<Cipher>, flags: seq<bool>, serverFirst: bool,
                 usable: Cipher -> bool): (l: Lists)
    requires |flags| == |server|
    ensures l.Valid()
  {
    if serverFirst then Lists(server, client, Some(flags), usable) else Lists(client, server, None, usable)
  }

  /** The loop of `ssl3_choose_cipher`. */
  method PickCipher(l: Lists) returns (choice: Option<Cipher>)
    requires l.Valid()
    ensures choice.Some? ==> l.Best(choice.value)
    ensures choice.None? <==> forall f :: 0 <= f < |l.prio| && l.FirstCommon(f) ==> !l.Closed(f)
  {
    hide Lists.Best, Lists.Closed;
    var groupMin := -1;
    ghost var first, best := 0, 0;
    var i := 0;
    while i < |l.prio|
      invariant 0 <= i <= |l.prio|
      invariant groupMin == -1 ==> forall k :: 0 <= k < i ==> !l.Common(k)
      invariant groupMin != -1 ==>
        && l.inGroup.Some? && 0 <= first <= best < i && l.FirstCommon(first) && l.Common(best)
        && groupMin == l.Rank(best) && forall k :: first <= k < i ==> l.GoesOn(k)
      invariant groupMin != -1 ==> forall k :: first <= k < i && l.Common(k) ==> l.Rank(best) <= l.Rank(k)
    {
      var c := l.prio[i];
      var found := Find(l.allow, c);
      if l.usable(c) && found.Some? {
        var cipherIndex := found.value;
        ghost var f := if groupMin == -1 then i else first;
        if l.inGroup.Some? && l.inGroup.value[i] {
          if groupMin == -1 || groupMin > cipherIndex {
            groupMin := cipherIndex;
            first, best := f, i;
          }
        } else {
          ghost var b := i;
          if groupMin != -1 && groupMin < cipherIndex {
            cipherIndex := groupMin;
            b := best;
          }
          Decides(l, f, b, i);
          return Some(l.allow[cipherIndex]);
        }
      }
      if l.inGroup.Some? && !l.inGroup.value[i] && groupMin != -1 {
        Decides(l, first, best, i);
        return Some(l.allow[groupMin]);
      }
      i := i + 1;
    }
    choice := None;
    Undecided(l, groupMin != -1, first);
  }

  /** At the end `i` of the first common group, with the best entry `b` of it so far. */
  lemma Decides(l: Lists, f: nat, b: nat, i: nat)
    requires l.Valid() && f <= b <= i < |l.prio| && l.FirstCommon(f) && l.Common(b) && !l.GoesOn(i)
    requires forall k :: f <= k < i ==> l.GoesOn(k)
    requires forall k :: f <= k <= i && l.Common(k) ==> l.Rank(b) <= l.Rank(k)
    ensures l.Best(l.prio[b]) && l.Closed(f)
  {
    assert forall j :: i < j < |l.prio| ==> !l.SameGroup(f, j);
    assert l.SameGroup(f, b);
    assert l.BestAt(f, b);
  }

  /** The list ended inside the first common group, or there is none. */
  lemma Undecided(l: Lists, any: bool, first: nat)
    requires l.Valid()
    requires !any ==> forall k :: 0 <= k < |l.prio| ==> !l.Common(k)
    requires any ==> first < |l.prio| && l.FirstCommon(first) && forall k :: first <= k < |l.prio| ==> l.GoesOn(k)
    ensures forall f :: 0 <= f < |l.prio| && l.FirstCommon(f) ==> !l.Closed(f)
  {
    forall f | 0 <= f < |l.prio| && l.FirstCommon(f)
      ensures !l.Closed(f)
    {
      assert f == first;
    }
  }

  lemma FirstCommonExists(l: Lists, i: nat) returns (f: nat)
    requires l.Valid() && i < |l.prio| && l.Common(i)
    ensures f <= i && l.FirstCommon(f)
  {
    f := 0;
    while !l.Common(f)
      invariant f <= i && forall k :: 0 <= k < f ==> !l.Common(k)
      decreases i - f
    {
      f := f + 1;
    }
  }

  /** With preference lists as they are built, whose last flag ends a group, or with the client's
      order, there is a choice exactly if there is a usable common cipher. */
  lemma ChoiceExists(l: Lists)
    requires l.Valid() && (l.inGroup.Some? && l.prio != [] ==> !l.GoesOn(|l.prio| - 1))
    ensures (exists f :: 0 <= f < |l.prio| && l.FirstCommon(f) && l.Closed(f)) <==>
      exists i :: 0 <= i < |l.prio| && l.Common(i)
  {
    if i :| 0 <= i < |l.prio| && l.Common(i) {
      var f := FirstCommonExists(l, i);
      assert !l.GoesOn(|l.prio| - 1);
      assert l.Closed(f);
    }
  }

  /** A list whose last flag does not end a group loses its last group. */
  lemma UnclosedGroup(c: Cipher)
    ensures var l := Lists([c], [c], Some([true]), _ => true);
      l.Valid() && l.Common(0) && !l.Closed(0)
  {
    assert [c] == [c] && c in [c];
  }

  /** The choice does not depend on the order within a group: it is the only one there is. */
  lemma BestIsUnique(l: Lists, c: Cipher, d: Cipher)
    requires l.Valid() && l.Best(c) && l.Best(d)
    ensures c == d
  {
    var f, b :| 0 <= f <= b < |l.prio| && l.prio[b] == c && l.BestAt(f, b);
    var g, e :| 0 <= g <= e < |l.prio| && l.prio[e] == d && l.BestAt(g, e);
    assert f == g;
    assert l.Rank(b) == l.Rank(e);
  }

  // ----- In terms of the two sides -----------------------------------------------------

  predicate Acceptable(c: Cipher, other: seq<Cipher>, usable: Cipher -> bool) {
    usable(c) && c in other
  }

  /** The client's first acceptable cipher. */
  ghost predicate ClientsChoice(client: seq<Cipher>, server: seq<Cipher>, usable: Cipher -> bool, c: Cipher) {
    exists f :: 0 <= f < |client| && client[f] == c && Acceptable(c, server, usable) &&
      forall k :: 0 <= k < f ==> !Acceptable(client[k], server, usable)
  }

  /** The server has the same preference for its ciphers at `i` and `j`. */
  predicate OneGroup(flags: seq<bool>, i: nat, j: nat)
    requires i < |flags| && j < |flags|
  {
    forall k :: (if i < j then i else j) <= k < (if i < j then j else i) ==> flags[k]
  }

  /** The server prefers no acceptable cipher to `c`, and among those it likes as much, the client
      has `c` first. */
  ghost predicate ServersChoice(client: seq<Cipher>, server: seq<Cipher>, flags: seq<bool>,
                                usable: Cipher -> bool, c: Cipher)
    requires |flags| == |server|
  {
    exists b :: 0 <= b < |server| && server[b] == c && Acceptable(c, client, usable) &&
      ServersBest(client, server, flags, usable, b)
  }

  ghost predicate ServersBest(client: seq<Cipher>, server: seq<Cipher>, flags: seq<bool>,
                              usable: Cipher -> bool, b: nat)
    requires |flags| == |server| && b < |server| && server[b] in client
  {
    && (forall k :: 0 <= k < b && Acceptable(server[k], client, usable) ==> OneGroup(flags, k, b))
    && (forall k :: 0 <= k < |server| && Acceptable(server[k], client, usable) && OneGroup(flags, k, b) ==>
          Find(client, server[b]).value <= Find(client, server[k]).value)
  }

  lemma ClientOrder(client: seq<Cipher>, server: seq<Cipher>, flags: seq<bool>, usable: Cipher -> bool, c: Cipher)
    requires |flags| == |server| && Order(client, server, flags, false, usable).Best(c)
    ensures ClientsChoice(client, server, usable, c)
  {
    var l := Order(client, server, flags, false, usable);
    var f, b :| 0 <= f <= b < |l.prio| && l.prio[b] == c && l.BestAt(f, b);
    assert f < b ==> l.GoesOn(f);
    forall k | 0 <= k < f
      ensures !Acceptable(client[k], server, usable)
    {
      assert !l.Common(k);
    }
  }

  /** The group of the first common entry, read off the flags. */
  lemma GroupFlags(l: Lists, flags: seq<bool>, f: nat, k: nat)
    requires l.Valid() && l.inGroup == Some(flags) && f <= k < |l.prio|
    ensures l.SameGroup(f, k) <==> forall i :: f <= i < k ==> flags[i]
  {
    assert forall i :: 0 <= i < |flags| ==> l.GoesOn(i) == flags[i];
  }

  lemma ServerOrder(client: seq<Cipher>, server: seq<Cipher>, flags: seq<bool>, usable: Cipher -> bool, c: Cipher)
    requires |flags| == |server| && Order(client, server, flags, true, usable).Best(c)
    ensures ServersChoice(client, server, flags, usable, c)
  {
    hide Lists.SameGroup, Find;
    var l := Order(client, server, flags, true, usable);
    var f, b :| 0 <= f <= b < |l.prio| && l.prio[b] == c && l.BestAt(f, b);
    GroupFlags(l, flags, f, b);
    forall k | 0 <= k < |server| && Acceptable(server[k], client, usable)
      ensures k < b ==> OneGroup(flags, k, b)
      ensures OneGroup(flags, k, b) ==> Find(client, server[b]).value <= Find(client, server[k]).value
    {
      assert l.Common(k) && f <= k;
      GroupFlags(l, flags, f, k);
    }
  }

  lemma SomeAcceptable(client: seq<Cipher>, server: seq<Cipher>, flags: seq<bool>, serverFirst: bool,
                       usable: Cipher -> bool)
    requires |flags| == |server|
    ensures var l := Order(client, server, flags, serverFirst, usable);
      (exists i :: 0 <= i < |l.prio| && l.Common(i)) <==> exists c :: c in client && Acceptable(c, server, usable)
  {
    var l := Order(client, server, flags, serverFirst, usable);
    if c :| c in client && Acceptable(c, server, usable) {
      var i :| 0 <= i < |l.prio| && l.prio[i] == c;
      assert l.Common(i);
    }
    if i :| 0 <= i < |l.prio| && l.Common(i) {
      assert l.prio[i] in client && Acceptable(l.prio[i], server, usable);
    }
  }

  /** `ssl3_choose_cipher`: by the server's preferences or by the client's. There is a choice
      exactly if some cipher is acceptable to both, as long as the server's list ends a group. */
  method ChooseCipher(client: seq<Cipher>, server: seq<Cipher>, flags: seq<bool>, serverFirst: bool,
                      usable: Cipher -> bool) returns (choice: Option<Cipher>)
    requires |flags| == |server|
    ensures choice.Some? && serverFirst ==> ServersChoice(client, server, flags, usable, choice.value)
    ensures choice.Some? && !serverFirst ==> ClientsChoice(client, server, usable, choice.value)
    ensures !serverFirst || flags == [] || !flags[|flags| - 1] ==>
      (choice.Some? <==> exists c :: c in client && Acceptable(c, server, usable))
  {
    hide Lists.Best, ServersChoice, ClientsChoice, Lists.Closed, Lists.FirstCommon;
    var l := Order(client, server, flags, serverFirst, usable);
    choice := PickCipher(l);
    if choice.Some? && serverFirst {
      ServerOrder(client, server, flags, usable, choice.value);
    }
    if choice.Some? && !serverFirst {
      ClientOrder(client, server, flags, usable, choice.value);
    }
    if !serverFirst || flags == [] || !flags[|flags| - 1] {
      ChoiceExists(l);
      SomeAcceptable(client, server, flags, serverFirst, usable);
    }
  }
}
