/** Canonical KMS key names and the derivation inputs built from them (src/keys.rs). */
module Keys {
  import opened ByteStrings
  import opened Outcomes
  import opened Texts

  /** The split iterator. */
  class Fields {
    const separator: char
    var rest: Option<string>

    ghost function Remaining(): (fields: seq<string>)
      reads this
    {
      if rest.None? then [] else Split(rest.value, separator)
    }

    constructor (s: string, separator: char)
      ensures Remaining() == Split(s, separator) && this.separator == separator
    {
      rest, this.separator := Some(s), separator;
    }

    method Next() returns (r: Option<string>)
      modifies this`rest
      ensures r == if old(Remaining()) == [] then None else Some(old(Remaining())[0])
      ensures Remaining() == if old(Remaining()) == [] then [] else old(Remaining())[1..]
    {
      if rest.None? { return None; }
      var s := rest.value;
      var i := 0;
      while i < |s| && s[i] != separator
        invariant 0 <= i <= |s|
        invariant forall j :: 0 <= j < i ==> s[j] != separator
      {
        i := i + 1;
      }
      assert i == FirstAt(s, separator) by { FirstIs(s, separator, i); }
      r := Some(s[..i]);
      rest := if i == |s| then None else Some(s[i + 1..]);
      assert s[..|s|] == s;
    }
  }

  // ------------------------------------------------------------------ key ARNs

  const REGIONS: set<string> := {
    "af-south-1", "ap-east-1", "ap-east-2", "ap-northeast-1", "ap-northeast-2",
    "ap-northeast-3", "ap-south-1", "ap-south-2", "ap-southeast-1", "ap-southeast-2",
    "ap-southeast-3", "ap-southeast-4", "ap-southeast-5", "ap-southeast-6", "ap-southeast-7",
    "ca-central-1", "ca-west-1", "eu-central-1", "eu-central-2", "eu-north-1",
    "eu-south-1", "eu-south-2", "eu-west-1", "eu-west-2", "eu-west-3",
    "il-central-1", "me-central-1", "me-south-1", "mx-central-1", "sa-east-1",
    "us-east-1", "us-east-2", "us-west-1", "us-west-2"}

  datatype KeyError = NotKmsArn | MissingRegion | UnsupportedRegion | BadAccount | MissingKey | ExtraComponents | NotAKey | BadKeyId

  predicate IsDigit(c: char)
  {
    '0' <= c <= '9'
  }

  predicate LowercaseHex(c: char)
  {
    IsDigit(c) || 'a' <= c <= 'f'
  }

  predicate Account(s: string)
  {
    |s| == 12 && forall i :: 0 <= i < |s| ==> IsDigit(s[i])
  }

  predicate AllHex(s: string)
  {
    forall i :: 0 <= i < |s| ==> LowercaseHex(s[i])
  }

  predicate Uuid(s: string)
  {
    |s| == 36 && forall i :: 0 <= i < |s| ==> if i == 8 || i == 13 || i == 18 || i == 23 then s[i] == '-' else LowercaseHex(s[i])
  }

  predicate MultiRegion(s: string)
  {
    "mrk-" <= s && |s| == 36 && AllHex(s[4..])
  }

  /** `valid_key`: the mrk- prefix decides which form is required. */
  predicate ValidKey(s: string)
  {
    if "mrk-" <= s then |s[4..]| == 32 && AllHex(s[4..]) else Uuid(s)
  }

  lemma ValidKeyIsOneOfTwoForms(s: string)
    ensures ValidKey(s) <==> Uuid(s) || MultiRegion(s)
  {
    if "mrk-" <= s && |s| == 36 {
      assert s[0] == 'm';
    }
  }

  function Arn(region: string, account: string, key: string): (s: string)
  {
    Join(["arn", "aws", "kms", region, account, "key/" + key], ':')
  }

  /** The checks on the fields, in order. */
  function CheckFields(fields: seq<string>): (r: Result<string, KeyError>)
  {
    if |fields| < 3 || fields[0] != "arn" || fields[1] != "aws" || fields[2] != "kms" then Err(NotKmsArn)
    else if |fields| < 4 then Err(MissingRegion)
    else if fields[3] !in REGIONS then Err(UnsupportedRegion)
    else if |fields| < 5 || !Account(fields[4]) then Err(BadAccount)
    else if |fields| < 6 then Err(MissingKey)
    else if |fields| > 6 then Err(ExtraComponents)
    else if !("key/" <= fields[5]) then Err(NotAKey)
    else if !ValidKey(fields[5][4..]) then Err(BadKeyId)
    else Ok(fields[3])
  }

  method KeyRegion(keyId: string) returns (r: Result<string, KeyError>)
    ensures r == CheckFields(Split(keyId, ':'))
  {
    hide Split, ValidKey;
    ghost var all := Split(keyId, ':');
    var fields := new Fields(keyId, ':');
    var f0 := fields.Next();
    if f0 != Some("arn") { return Err(NotKmsArn); }
    var f1 := fields.Next();
    if f1 != Some("aws") { return Err(NotKmsArn); }
    var f2 := fields.Next();
    if f2 != Some("kms") { return Err(NotKmsArn); }
    assert fields.Remaining() == all[3..];
    var region := fields.Next();
    if region.None? { return Err(MissingRegion); }
    if region.value !in REGIONS { return Err(UnsupportedRegion); }
    var account := fields.Next();
    if account.None? || |account.value| != 12 || (exists i :: 0 <= i < 12 && !IsDigit(account.value[i])) {
      return Err(BadAccount);
    }
    assert fields.Remaining() == all[5..];
    var resource := fields.Next();
    if resource.None? { return Err(MissingKey); }
    var extra := fields.Next();
    if extra.Some? { return Err(ExtraComponents); }
    if !("key/" <= resource.value) { return Err(NotAKey); }
    if !ValidKey(resource.value[4..]) { return Err(BadKeyId); }
    r := Ok(region.value);
  }

  lemma RegionHasNoColon(region: string)
    requires region in REGIONS
    ensures ':' !in region
  {}

  lemma KeyHasNoColon(key: string)
    requires ValidKey(key)
    ensures ':' !in "key/" + key
  {
    ValidKeyIsOneOfTwoForms(key);
    forall i | 0 <= i < |key| ensures key[i] != ':' {
      if MultiRegion(key) && i >= 4 { assert key[i] == key[4..][i - 4]; }
    }
  }

  /** Twelve decimal digits. */
  predicate TwelveDigits(s: string)
  {
    |s| == 12 && forall c :: c in s ==> c in "0123456789"
  }

  predicate HexGroup(s: string, length: nat)
  {
    |s| == length && forall c :: c in s ==> c in "0123456789abcdef"
  }

  /** A lowercase UUID: five hexadecimal groups of 8, 4, 4, 4 and 12. */
  ghost predicate HyphenatedHex(s: string)
  {
    exists a, b, c, d, e ::
      && HexGroup(a, 8) && HexGroup(b, 4) && HexGroup(c, 4) && HexGroup(d, 4) && HexGroup(e, 12)
      && s == a + "-" + b + "-" + c + "-" + d + "-" + e
  }

  ghost predicate MrkHex(s: string)
  {
    exists id :: HexGroup(id, 32) && s == "mrk-" + id
  }

  lemma HexIsGroup(s: string)
    ensures AllHex(s) <==> HexGroup(s, |s|)
  {
    forall c ensures LowercaseHex(c) <==> c in "0123456789abcdef" { HexCharacters(c); }
  }

  lemma HexCharacters(c: char)
    ensures LowercaseHex(c) <==> c in "0123456789abcdef"
    ensures IsDigit(c) <==> c in "0123456789"
  {}

  lemma UuidIsHyphenated(s: string)
    ensures Uuid(s) <==> HyphenatedHex(s)
  {
    if Uuid(s) {
      var a, b, c, d, e := s[..8], s[9..13], s[14..18], s[19..23], s[24..];
      HexIsGroup(a);
      HexIsGroup(b);
      HexIsGroup(c);
      HexIsGroup(d);
      HexIsGroup(e);
      assert s == a + "-" + b + "-" + c + "-" + d + "-" + e;
    }
    if HyphenatedHex(s) {
      var a, b, c, d, e :|
        && HexGroup(a, 8) && HexGroup(b, 4) && HexGroup(c, 4) && HexGroup(d, 4) && HexGroup(e, 12)
        && s == a + "-" + b + "-" + c + "-" + d + "-" + e;
      HexIsGroup(a);
      HexIsGroup(b);
      HexIsGroup(c);
      HexIsGroup(d);
      HexIsGroup(e);
      GroupsAreUuid(s, a, b, c, d, e);
    }
  }

  lemma GroupsAreUuid(s: string, a: string, b: string, c: string, d: string, e: string)
    requires |a| == 8 && |b| == |c| == |d| == 4 && |e| == 12
    requires AllHex(a) && AllHex(b) && AllHex(c) && AllHex(d) && AllHex(e)
    requires s == a + "-" + b + "-" + c + "-" + d + "-" + e
    ensures Uuid(s)
  {
    hide LowercaseHex;
    assert s[..8] == a && s[8] == '-' && s[9..13] == b && s[13] == '-' && s[14..18] == c;
    assert s[18] == '-' && s[19..23] == d && s[23] == '-' && s[24..] == e;
    forall i | 0 <= i < 36 && i != 8 && i != 13 && i != 18 && i != 23 ensures LowercaseHex(s[i]) {
      if i < 8 { assert s[i] == a[i]; }
      else if i < 13 { assert s[i] == b[i - 9]; }
      else if i < 18 { assert s[i] == c[i - 14]; }
      else if i < 23 { assert s[i] == d[i - 19]; }
      else { assert s[i] == e[i - 24]; }
    }
  }

  lemma FormsAgree(s: string)
    ensures Account(s) <==> TwelveDigits(s)
    ensures Uuid(s) <==> HyphenatedHex(s)
    ensures MultiRegion(s) <==> MrkHex(s)
  {
    hide Uuid, HyphenatedHex;
    UuidIsHyphenated(s);
    forall c ensures IsDigit(c) <==> c in "0123456789" { HexCharacters(c); }
    if MultiRegion(s) {
      HexIsGroup(s[4..]);
      assert s == "mrk-" + s[4..];
    }
    if MrkHex(s) {
      var id :| HexGroup(id, 32) && s == "mrk-" + id;
      HexIsGroup(id);
      assert s[4..] == id;
    }
  }

  /** The accepted names are exactly those printed from a listed region, an account and a canonical key id. */
  lemma AcceptsExactlyPrintedArns(keyId: string, region: string)
    ensures CheckFields(Split(keyId, ':')) == Ok(region) <==>
      region in REGIONS && exists account, key ::
        TwelveDigits(account) && (HyphenatedHex(key) || MrkHex(key)) && keyId == Arn(region, account, key)
  {
    hide Split, Join, ValidKey, Uuid, MultiRegion, Account, TwelveDigits, HyphenatedHex, MrkHex;
    forall s ensures (Account(s) <==> TwelveDigits(s)) && (Uuid(s) <==> HyphenatedHex(s)) && (MultiRegion(s) <==> MrkHex(s)) {
      FormsAgree(s);
    }
    if CheckFields(Split(keyId, ':')) == Ok(region) {
      var fields := Split(keyId, ':');
      var account, key := fields[4], fields[5][4..];
      ValidKeyIsOneOfTwoForms(key);
      JoinInvertsSplit(keyId, ':');
      assert fields[5] == "key/" + key;
      assert fields == ["arn", "aws", "kms", region, account, "key/" + key];
    }
    forall account, key |
      region in REGIONS && Account(account) && (Uuid(key) || MultiRegion(key)) && keyId == Arn(region, account, key)
      ensures CheckFields(Split(keyId, ':')) == Ok(region)
    {
      PrintedArnIsAccepted(region, account, key);
    }
  }

  lemma PrintedArnIsAccepted(region: string, account: string, key: string)
    requires region in REGIONS && Account(account) && (Uuid(key) || MultiRegion(key))
    ensures CheckFields(Split(Arn(region, account, key), ':')) == Ok(region)
  {
    hide Split, Join, ValidKey, Uuid, MultiRegion;
    var fields := ["arn", "aws", "kms", region, account, "key/" + key];
    ValidKeyIsOneOfTwoForms(key);
    RegionHasNoColon(region);
    AccountHasNoColon(account);
    KeyHasNoColon(key);
    assert ':' !in "arn" && ':' !in "aws" && ':' !in "kms";
    SplitInvertsJoin(fields, ':');
    assert ("key/" + key)[4..] == key;
  }

  lemma AccountHasNoColon(account: string)
    requires Account(account)
    ensures ':' !in account
  {}

  // --------------------------------------------------------------- derivation

  datatype Network = Bitcoin | Testnet | Testnet4 | Signet | Regtest

  function NetworkTag(network: Network): (tag: Byte)
  {
    match network
    case Bitcoin => 0
    case Testnet => 1
    case Testnet4 => 2
    case Signet => 3
    case Regtest => 4
  }

  /** "sapio-tee/bip32-root/v1" in ASCII. */
  const ROOT_INFO_DOMAIN: Bytes := [
    0x73, 0x61, 0x70, 0x69, 0x6F, 0x2D, 0x74, 0x65, 0x65, 0x2F, 0x62, 0x69,
    0x70, 0x33, 0x32, 0x2D, 0x72, 0x6F, 0x6F, 0x74, 0x2F, 0x76, 0x31]

  /** "sapio-tee/p256-nums/v1" in ASCII. */
  const NUMS_DOMAIN: Bytes := [
    0x73, 0x61, 0x70, 0x69, 0x6F, 0x2D, 0x74, 0x65, 0x65, 0x2F, 0x70, 0x32,
    0x35, 0x36, 0x2D, 0x6E, 0x75, 0x6D, 0x73, 0x2F, 0x76, 0x31]

  lemma {:induction false} BeIsInjective(a: nat, b: nat, k: nat)
    requires a < Pow256(k) && b < Pow256(k) && Be(a, k) == Be(b, k)
    ensures a == b
    decreases k
  {
    if k > 0 {
      var x, y := Be(a, k), Be(b, k);
      assert x[k - 1] == a % 256 && y[k - 1] == b % 256;
      assert x[..k - 1] == Be(a / 256, k - 1) && y[..k - 1] == Be(b / 256, k - 1);
      BeIsInjective(a / 256, b / 256, k - 1);
    }
  }

  /** The HKDF info string of `root_from_secret`. */
  function RootInfo(keyId: Bytes, blockhash: Digest, network: Network): (b: Bytes)
  {
    ROOT_INFO_DOMAIN + Be(|keyId|, 4) + keyId + blockhash + [NetworkTag(network)]
  }

  /** Different settings never share an info string. */
  lemma RootInfoIsInjective(k1: Bytes, h1: Digest, n1: Network, k2: Bytes, h2: Digest, n2: Network)
    requires |k1| < 0x1_0000_0000 && |k2| < 0x1_0000_0000
    requires RootInfo(k1, h1, n1) == RootInfo(k2, h2, n2)
    ensures k1 == k2 && h1 == h2 && n1 == n2
  {
    hide Be;
    RootInfoFields(k1, h1, n1);
    RootInfoFields(k2, h2, n2);
    Pow256Widths();
    BeIsInjective(|k1|, |k2|, 4);
  }

  lemma RootInfoFields(keyId: Bytes, blockhash: Digest, network: Network)
    ensures var d := |ROOT_INFO_DOMAIN|;
      var b := RootInfo(keyId, blockhash, network);
      && |b| == d + 37 + |keyId|
      && b[d..d + 4] == Be(|keyId|, 4)
      && b[d + 4..d + 4 + |keyId|] == keyId
      && b[d + 4 + |keyId|..d + 36 + |keyId|] == blockhash
      && b[d + 36 + |keyId|] == match network
         case Bitcoin => 0
         case Testnet => 1
         case Testnet4 => 2
         case Signet => 3
         case Regtest => 4
  {
    hide Be;
    var domain := ROOT_INFO_DOMAIN;
    FieldsOf(domain, Be(|keyId|, 4), keyId, blockhash, NetworkTag(network));
  }

  lemma FieldsOf(domain: Bytes, length: Bytes, keyId: Bytes, blockhash: Digest, tag: Byte)
    requires |length| == 4
    ensures var d := |domain|;
      var b := domain + length + keyId + blockhash + [tag];
      && |b| == d + 37 + |keyId|
      && b[d..d + 4] == length
      && b[d + 4..d + 4 + |keyId|] == keyId
      && b[d + 4 + |keyId|..d + 36 + |keyId|] == blockhash
      && b[d + 36 + |keyId|] == tag
  {}

  /** The compressed encoding tried at a counter: even y, hashed x. */
  function Candidate(sha: Sha256, blockhash: Digest, counter: U32): (b: Bytes)
    ensures |b| == 33
  {
    [0x02] + sha(NUMS_DOMAIN + blockhash + Be(counter, 4))
  }

  /** `nums_point`: the point of the least counter whose candidate decompresses. */
  method NumsPoint<Point>(sha: Sha256, decompress: Bytes -> Option<Point>, blockhash: Digest)
    returns (r: Option<Point>, counter: U32)
    ensures r.Some? ==> r == decompress(Candidate(sha, blockhash, counter))
    ensures r.Some? ==> forall c: U32 :: c < counter ==> decompress(Candidate(sha, blockhash, c)).None?
    ensures r.None? ==> forall c: U32 :: decompress(Candidate(sha, blockhash, c)).None?
  {
    hide Be;
    var prefix: Bytes := NUMS_DOMAIN + blockhash;
    var next := 0;
    counter := 0;
    while next < 0x1_0000_0000
      invariant 0 <= next <= 0x1_0000_0000
      invariant forall c: U32 :: c < next ==> decompress(Candidate(sha, blockhash, c)).None?
    {
      counter := next;
      var compressed: Bytes := [0x02] + sha(prefix + Be(counter, 4));
      r := decompress(compressed);
      if r.Some? { return; }
      next := next + 1;
    }
    r := None;
  }
}
