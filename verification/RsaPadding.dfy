/** The constant-time check of an RSA-encrypted premaster secret (section 7.4.7.1 of
    RFC 5246, section 7.2.2 of RFC 3447) and the word tricks it is made of. */
module RsaPadding {
  import opened Wrappers

  const TRUE_W: bv64 := 0xffff_ffff_ffff_ffff
  const TRUE_8: bv8 := 0xff
  const PREMASTER: nat := 48  // SSL_MAX_MASTER_KEY_LENGTH

  function Mask(b: bool): bv64 { if b then TRUE_W else 0 }

  function Mask8(b: bool): bv8 { if b then TRUE_8 else 0 }

  /** The top bit copied to all others. */
  function MsbW(a: bv64): (r: bv64)
    ensures r == Mask(a >= 0x8000_0000_0000_0000)
  {
    0 - (a >> 63)
  }

  function IsZeroW(a: bv64): (r: bv64)
    ensures r == Mask(a == 0)
  {
    MsbW(!a & (a - 1))
  }

  function EqW(a: bv64, b: bv64): (r: bv64)
    ensures r == Mask(a == b)
  {
    XorZero(a, b);
    IsZeroW(a ^ b)
  }

  lemma XorZero(a: bv64, b: bv64)
    ensures a ^ b == 0 <==> a == b
  {}

  /** The low byte of a word. */
  function Low8(a: bv64): bv8 { (a & 0xff) as bv8 }

  function IsZero8(a: bv8): (r: bv8)
    ensures r == Mask8(a == 0)
  {
    Low8(IsZeroW(a as bv64))
  }

  function Eq8(a: bv8, b: bv64): (r: bv8)
    ensures r == Mask8(a as bv64 == b)
  {
    Low8(EqW(a as bv64, b))
  }

  function Select8(mask: bv8, a: bv8, b: bv8): (r: bv8)
    ensures mask == TRUE_8 ==> r == a
    ensures mask == 0 ==> r == b
  {
    (mask & a) | (!mask & b)
  }

  /** The bytes are 00 02, bytes that are not zero, 00, and a premaster secret of
      48 bytes that begins with the version. */
  ghost predicate WellPadded(d: seq<bv8>, version: bv16)
    requires |d| >= 11 + PREMASTER
  {
    var n := |d| - PREMASTER;
    && d[0] == 0 && d[1] == 2
    && (forall i :: 2 <= i < n - 1 ==> d[i] != 0)
    && d[n - 1] == 0
    && d[n] as bv64 == (version >> 8) as bv64 && d[n + 1] as bv64 == (version & 0xff) as bv64
  }

  /** The first zero byte of `d` from `i` on. */
  function FirstZero(d: seq<bv8>, i: nat): (k: nat)
    requires i <= |d|
    ensures i <= k <= |d| && (k < |d| ==> d[k] == 0)
    ensures forall j :: i <= j < k ==> d[j] != 0
    decreases |d| - i
  {
    if i == |d| || d[i] == 0 then i else FirstZero(d, i + 1)
  }

  /** EME-PKCS1-v1_5 decoding: the message after 00 02, at least eight bytes of
      padding and 00. */
  function Unpad(d: seq<bv8>): (m: Option<seq<bv8>>) {
    if |d| < 11 || d[0] != 0 || d[1] != 2 then None
    else
      var k := FirstZero(d, 2);
      if k == |d| || k < 10 then None else Some(d[k + 1..])
  }

  /** The block that passes is the one that decodes to a premaster secret with the
      right version. */
  lemma WellPaddedIsDecoding(d: seq<bv8>, version: bv16)
    requires |d| >= 11 + PREMASTER
    ensures WellPadded(d, version) <==>
            && Unpad(d).Some? && |Unpad(d).value| == PREMASTER
            && Unpad(d).value[0] as bv64 == (version >> 8) as bv64
            && Unpad(d).value[1] as bv64 == (version & 0xff) as bv64
  {
    var n := |d| - PREMASTER;
    var k := FirstZero(d, 2);
    if WellPadded(d, version) {
      assert d[n - 1] == 0;
      assert k == n - 1;
    }
    if Unpad(d).Some? && |Unpad(d).value| == PREMASTER {
      assert k + 1 == n;
      assert Unpad(d).value[0] == d[n] && Unpad(d).value[1] == d[n + 1];
    }
  }

  lemma AndMask8(a: bool, b: bool)
    ensures Mask8(a) & Mask8(b) == Mask8(a && b)
    ensures Mask8(a) & !Mask8(b) == Mask8(a && !b)
  {}

  /** The padding check of do_read_client_key_exchange: the random premaster stays,
      or is replaced in full. None when the decryption is too short. */
  method CheckPadding(decrypted: seq<bv8>, modulusLen: nat, premaster: array<bv8>, version: bv16) returns (ok: bool)
    requires premaster.Length == PREMASTER
    modifies premaster
    ensures ok <==> |decrypted| == modulusLen && |decrypted| >= 11 + PREMASTER
    ensures premaster[..] == if ok && WellPadded(decrypted, version)
                             then decrypted[|decrypted| - PREMASTER..] else old(premaster[..])
  {
    if |decrypted| != modulusLen || |decrypted| < 11 + PREMASTER {
      return false;
    }
    var n := |decrypted| - PREMASTER;
    var good := PaddingMask(decrypted, version);
    var i := 0;
    while i < PREMASTER
      invariant 0 <= i <= PREMASTER
      invariant forall j :: 0 <= j < i ==>
                  premaster[j] == if WellPadded(decrypted, version) then decrypted[n + j] else old(premaster[j])
      invariant forall j :: i <= j < PREMASTER ==> premaster[j] == old(premaster[j])
    {
      premaster[i] := Select8(good, decrypted[n + i], premaster[i]);
      i := i + 1;
    }
    return true;
  }

  /** The mask is all ones for a well-padded block and zero for any other. */
  method PaddingMask(d: seq<bv8>, version: bv16) returns (good: bv8)
    requires |d| >= 11 + PREMASTER
    ensures good == Mask8(WellPadded(d, version))
  {
    var n := |d| - PREMASTER;
    good := Eq8(d[0], 0) & Eq8(d[1], 2);
    AndMask8(d[0] as bv64 == 0, d[1] as bv64 == 2);
    var i := 2;
    ghost var sofar := d[0] as bv64 == 0 && d[1] as bv64 == 2;
    while i < n - 1
      invariant 2 <= i <= n - 1
      invariant sofar <==> (d[0] == 0 && d[1] == 2 && forall j :: 2 <= j < i ==> d[j] != 0)
      invariant good == Mask8(sofar)
    {
      AndMask8(sofar, d[i] == 0);
      good := good & !IsZero8(d[i]);
      sofar := sofar && d[i] != 0;
      i := i + 1;
    }
    AndMask8(sofar, d[n - 1] == 0);
    good := good & IsZero8(d[n - 1]);
    sofar := sofar && d[n - 1] == 0;
    AndMask8(sofar, d[n] as bv64 == (version >> 8) as bv64);
    good := good & Eq8(d[n], (version >> 8) as bv64);
    sofar := sofar && d[n] as bv64 == (version >> 8) as bv64;
    AndMask8(sofar, d[n + 1] as bv64 == (version & 0xff) as bv64);
    good := good & Eq8(d[n + 1], (version & 0xff) as bv64);
  }
}
