/** Cipher selection by a TLS server with equal-preference groups. */
module CipherChoice {
  import opened Wrappers

  datatype Cipher = Cipher(id: nat, minVersion: nat, maxVersion: nat, mkey: bv32, auth: bv32)

  /** What the server's version and configuration allow. */
  datatype Config = Config(version: nat, maskK: bv32, maskA: bv32)

  predicate Supported(c: Cipher, cfg: Config) {
    && c.minVersion <= cfg.version <= c.maxVersion
    && Shares(c.mkey, cfg.maskK)
    && Shares(c.auth, cfg.maskA)
  }

  /** Some bit is set in both. */
  predicate Shares(a: bv32, b: bv32) { a & b != 0 }

  /** Every bit of `a` is set in `mask`. */
  predicate Within(a: bv32, mask: bv32) { a | mask == mask }

  /** The flags of the key exchanges and of the authentications. */
  predicate Flag(b: bv32) { b == 0x1 || b == 0x2 || b == 0x4 || b == 0x8 }

  /** A cipher with one key exchange and one authentication is supported exactly when
      the version is one of its own and both are among those enabled. */
  lemma SupportedExactly(c: Cipher, cfg: Config)
    requires Flag(c.mkey) && Flag(c.auth)
    ensures Supported(c, cfg) <==>
              c.minVersion <= cfg.version <= c.maxVersion && Within(c.mkey, cfg.maskK) && Within(c.auth, cfg.maskA)
  {
    hide Flag, Shares, Within;
    FlagEnabled(c.mkey, cfg.maskK);
    FlagEnabled(c.auth, cfg.maskA);
  }

  lemma FlagEnabled(b: bv32, mask: bv32)
    requires Flag(b)
    ensures Shares(b, mask) <==> Within(b, mask)
  {
    FlagOne(mask);
    FlagTwo(mask);
    FlagFour(mask);
    FlagEight(mask);
  }

  lemma FlagOne(mask: bv32) ensures Shares(0x1, mask) <==> Within(0x1, mask) {}
  lemma FlagTwo(mask: bv32) ensures Shares(0x2, mask) <==> Within(0x2, mask) {}
  lemma FlagFour(mask: bv32) ensures Shares(0x4, mask) <==> Within(0x4, mask) {}
  lemma FlagEight(mask: bv32) ensures Shares(0x8, mask) <==> Within(0x8, mask) {}

  /** sk_SSL_CIPHER_find: the first place of `c` in `list`. */
  function Rank(list: seq<Cipher>, c: Cipher): (k: nat)
    ensures k <= |list| && (k < |list| ==> list[k] == c)
    ensures c in list <==> k < |list|
    ensures forall j :: 0 <= j < k ==> list[j] != c
  {
    if list == [] then 0 else if list[0] == c then 0 else 1 + Rank(list[1..], c)
  }

  predicate Acceptable(c: Cipher, cfg: Config, allow: seq<Cipher>) {
    Supported(c, cfg) && c in allow
  }

  /** The flag of entry `i` says that it shares a group with entry `i + 1`. */
  predicate Linked(flags: Option<seq<nat>>, i: nat) {
    flags.Some? && i < |flags.value| && flags.value[i] == 1
  }

  /** Entries `i` and `j` are equally preferred. */
  ghost predicate SameGroup(flags: Option<seq<nat>>, i: nat, j: nat) {
    forall k :: (if i <= j then i else j) <= k < (if i <= j then j else i) ==> Linked(flags, k)
  }

  /** The group of entry `i` comes to an end inside the list. */
  ghost predicate Ends(prio: seq<Cipher>, flags: Option<seq<nat>>, i: nat) {
    exists e: nat :: i <= e < |prio| && !Linked(flags, e)
  }

  /** The rule: entry `m` is acceptable, every other acceptable entry is in a later
      group, or in the same one and not ranked before it in the other list. */
  ghost predicate Best(prio: seq<Cipher>, flags: Option<seq<nat>>, allow: seq<Cipher>, cfg: Config, m: nat) {
    && m < |prio| && Acceptable(prio[m], cfg, allow) && Ends(prio, flags, m)
    && forall k: nat :: k < |prio| && Acceptable(prio[k], cfg, allow) ==>
         if SameGroup(flags, m, k) then Rank(allow, prio[m]) <= Rank(allow, prio[k]) else m < k
  }

  /** The rule leaves no choice. */
  lemma BestIsUnique(prio: seq<Cipher>, flags: Option<seq<nat>>, allow: seq<Cipher>, cfg: Config, m: nat, n: nat)
    requires Best(prio, flags, allow, cfg, m) && Best(prio, flags, allow, cfg, n)
    ensures prio[m] == prio[n]
  {
    assert SameGroup(flags, m, n) <==> SameGroup(flags, n, m);
    assert Rank(allow, prio[m]) == Rank(allow, prio[n]);
  }

  /** Flags as the preference list keeps them: 0 or 1, the last group closed. */
  ghost predicate WellFlagged(prio: seq<Cipher>, flags: Option<seq<nat>>) {
    flags.Some? ==>
      && |flags.value| == |prio|
      && (forall i :: 0 <= i < |flags.value| ==> flags.value[i] <= 1)
      && (prio != [] ==> flags.value[|prio| - 1] == 0)
  }

  lemma GroupsEnd(prio: seq<Cipher>, flags: Option<seq<nat>>, i: nat)
    requires WellFlagged(prio, flags) && i < |prio|
    ensures Ends(prio, flags, i)
  {
    assert !Linked(flags, |prio| - 1);
  }

  ghost predicate NoneBefore(prio: seq<Cipher>, allow: seq<Cipher>, cfg: Config, i: nat) {
    forall k: nat :: k < i && k < |prio| ==> !Acceptable(prio[k], cfg, allow)
  }

  /** Entry `m` is the best of the group that is still open at `i`, the first group
      with an acceptable entry. */
  ghost predicate BestSoFar(prio: seq<Cipher>, flags: Option<seq<nat>>, allow: seq<Cipher>, cfg: Config, m: nat, i: nat) {
    && m < i <= |prio| && Acceptable(prio[m], cfg, allow) && SameGroup(flags, m, i)
    && forall k: nat :: k < i && Acceptable(prio[k], cfg, allow) ==>
         SameGroup(flags, m, k) && Rank(allow, prio[m]) <= Rank(allow, prio[k])
  }

  /** What was found before `i`: nothing, or the best so far. */
  ghost predicate Scanned(prio: seq<Cipher>, flags: Option<seq<nat>>, allow: seq<Cipher>, cfg: Config, groupMin: int, m: nat, i: nat) {
    if groupMin == -1 then NoneBefore(prio, allow, cfg, i)
    else BestSoFar(prio, flags, allow, cfg, m, i) && groupMin == Rank(allow, prio[m])
  }

  /** Inside a group the scan goes on, with entry `i` if it is better. */
  lemma ScanLinked(prio: seq<Cipher>, flags: Option<seq<nat>>, allow: seq<Cipher>, cfg: Config, groupMin: int, m: nat, i: nat)
    requires i < |prio| && Scanned(prio, flags, allow, cfg, groupMin, m, i) && Linked(flags, i)
    ensures !Acceptable(prio[i], cfg, allow) ==> Scanned(prio, flags, allow, cfg, groupMin, m, i + 1)
    ensures Acceptable(prio[i], cfg, allow) && groupMin != -1 && groupMin <= Rank(allow, prio[i]) ==>
              Scanned(prio, flags, allow, cfg, groupMin, m, i + 1)
    ensures Acceptable(prio[i], cfg, allow) && (groupMin == -1 || groupMin > Rank(allow, prio[i])) ==>
              Scanned(prio, flags, allow, cfg, Rank(allow, prio[i]), i, i + 1)
  {
    hide Rank, Acceptable, Linked;
    if groupMin != -1 {
      forall k: nat | k < i && SameGroup(flags, m, k) ensures SameGroup(flags, i, k) {
        LinkBack(flags, m, k, i);
      }
    }
  }

  lemma LinkBack(flags: Option<seq<nat>>, m: nat, k: nat, i: nat)
    requires m < i && k < i && SameGroup(flags, m, k) && SameGroup(flags, m, i)
    ensures SameGroup(flags, i, k)
  {}

  /** At the end of a group the scan decides, if it has anything. */
  lemma ScanEnds(prio: seq<Cipher>, flags: Option<seq<nat>>, allow: seq<Cipher>, cfg: Config, groupMin: int, m: nat, i: nat)
    requires i < |prio| && Scanned(prio, flags, allow, cfg, groupMin, m, i) && !Linked(flags, i)
    ensures !Acceptable(prio[i], cfg, allow) && groupMin == -1 ==> Scanned(prio, flags, allow, cfg, groupMin, m, i + 1)
    ensures groupMin != -1 && (!Acceptable(prio[i], cfg, allow) || groupMin < Rank(allow, prio[i])) ==>
              Best(prio, flags, allow, cfg, m)
    ensures Acceptable(prio[i], cfg, allow) && (groupMin == -1 || groupMin >= Rank(allow, prio[i])) ==>
              Best(prio, flags, allow, cfg, i)
  {
    hide Rank, Acceptable, Linked;
    if Acceptable(prio[i], cfg, allow) && (groupMin == -1 || groupMin >= Rank(allow, prio[i])) {
      if groupMin != -1 {
        forall k: nat | k < i && SameGroup(flags, m, k) ensures SameGroup(flags, i, k) { LinkBack(flags, m, k, i); }
      }
      assert SameGroup(flags, i, i);
      FoundBest(prio, flags, allow, cfg, i, i);
    } else if groupMin != -1 {
      FoundBest(prio, flags, allow, cfg, m, i);
    }
  }

  /** At the end of the first group with an acceptable entry. */
  lemma FoundBest(prio: seq<Cipher>, flags: Option<seq<nat>>, allow: seq<Cipher>, cfg: Config, m: nat, e: nat)
    requires m <= e < |prio| && !Linked(flags, e) && SameGroup(flags, m, e)
    requires Acceptable(prio[m], cfg, allow)
    requires forall k: nat :: k <= e && Acceptable(prio[k], cfg, allow) ==>
               SameGroup(flags, m, k) && Rank(allow, prio[m]) <= Rank(allow, prio[k])
    ensures Best(prio, flags, allow, cfg, m)
  {
    hide Rank, Acceptable, Linked;
    forall k: nat | e < k < |prio| ensures !SameGroup(flags, m, k) {
      assert m <= e < k && !Linked(flags, e);
    }
  }

  /** The loop of ssl3_choose_cipher over the list that has priority. */
  method Choose(prio: seq<Cipher>, flags: Option<seq<nat>>, allow: seq<Cipher>, cfg: Config)
    returns (r: Option<Cipher>)
    requires WellFlagged(prio, flags)
    ensures r.None? <==> forall k: nat :: k < |prio| ==> !Acceptable(prio[k], cfg, allow)
    ensures r.Some? ==> exists m: nat :: Best(prio, flags, allow, cfg, m) && r.value == prio[m]
  {
    hide Rank, SameGroup, Supported;
    var groupMin: int := -1;
    ghost var best: nat := 0;  // the entry that groupMin is the rank of
    var i := 0;
    while i < |prio|
      invariant 0 <= i <= |prio|
      invariant Scanned(prio, flags, allow, cfg, groupMin, best, i)
      invariant groupMin != -1 ==> i > 0 && Linked(flags, i - 1)
    {
      var c := prio[i];
      var cipherIndex := Rank(allow, c);
      if Linked(flags, i) { ScanLinked(prio, flags, allow, cfg, groupMin, best, i); }
      else { ScanEnds(prio, flags, allow, cfg, groupMin, best, i); }
      if Supported(c, cfg) && cipherIndex < |allow| {
        if flags.Some? && flags.value[i] == 1 {
          if groupMin == -1 || groupMin > cipherIndex {
            groupMin, best := cipherIndex, i;
          }
        } else {
          if groupMin != -1 && groupMin < cipherIndex {
            cipherIndex := groupMin;
          }
          return Some(allow[cipherIndex]);
        }
      }
      if flags.Some? && flags.value[i] == 0 && groupMin != -1 {
        return Some(allow[groupMin]);
      }
      i := i + 1;
    }
    return None;
  }

  /** ssl3_choose_cipher: the server's list and groups decide, or the client's list. */
  method ChooseCipher(serverPref: seq<Cipher>, serverFlags: Option<seq<nat>>, clientPref: seq<Cipher>,
                      preferServer: bool, cfg: Config)
    returns (r: Option<Cipher>)
    requires WellFlagged(serverPref, serverFlags)
    ensures r.None? <==> forall c :: c in serverPref && c in clientPref ==> !Supported(c, cfg)
    ensures r.Some? && preferServer ==>
              exists m: nat :: Best(serverPref, serverFlags, clientPref, cfg, m) && r.value == serverPref[m]
    ensures r.Some? && !preferServer ==>
              exists m: nat :: Best(clientPref, None, serverPref, cfg, m) && r.value == clientPref[m]
  {
    if preferServer {
      r := Choose(serverPref, serverFlags, clientPref, cfg);
      assert forall k: nat :: k < |serverPref| ==> serverPref[k] in serverPref;
    } else {
      r := Choose(clientPref, None, serverPref, cfg);
      assert forall k: nat :: k < |clientPref| ==> clientPref[k] in clientPref;
    }
  }

  /** Without groups the rule is the first acceptable entry of the priority list. */
  lemma UngroupedIsFirst(prio: seq<Cipher>, allow: seq<Cipher>, cfg: Config, m: nat)
    ensures Best(prio, None, allow, cfg, m) <==>
            m < |prio| && Acceptable(prio[m], cfg, allow)
            && forall k: nat :: k < m ==> !Acceptable(prio[k], cfg, allow)
  {
    var flags: Option<seq<nat>> := None;
    forall k: nat ensures SameGroup(flags, m, k) <==> m == k {
      if m != k {
        var low := if m <= k then m else k;
        assert !Linked(flags, low);
      }
    }
    if m < |prio| { GroupsEnd(prio, flags, m); }
  }
}
