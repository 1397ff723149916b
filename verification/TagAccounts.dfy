/** The on-chain tag account: its byte layout, the strict decoder
    (packages/core/src/account.ts), the program that writes it
    (programs/tip-registry) and the indexer's verification of one account
    (apps/indexer/src/decode-and-verify.ts). */
module TagAccounts {
  import opened Prelude
  import opened Text
  import opened TagRules

  type Address = a: seq<byte> | |a| == 32 witness seq(32, _ => 0)

  const DISCRIMINATOR: seq<byte> := [206, 141, 84, 39, 161, 42, 185, 170]
  const OWNER_OFFSET := 8
  const WALLET_OFFSET := OWNER_OFFSET + 32
  const TAG_OFFSET := WALLET_OFFSET + 32
  const TAG_LEN_OFFSET := TAG_OFFSET + MAX_TAG_LENGTH
  const BUMP_OFFSET := TAG_LEN_OFFSET + 1
  const TAG_ACCOUNT_SIZE := BUMP_OFFSET + 1

  /** The account as the program stores it. */
  datatype Account = Account(owner: Address, wallet: Address, tag: seq<byte>, tagLen: byte, bump: byte)

  /** Anchor's layout: the discriminator and the fields in order. */
  function Serialize(a: Account): seq<byte> {
    DISCRIMINATOR + a.owner + a.wallet + a.tag + [a.tagLen] + [a.bump]
  }

  // ---------------------------------------------------------------------
  // Decoding
  // ---------------------------------------------------------------------

  /** A decoded account: the tag without its padding. */
  datatype TagAccount = TagAccount(owner: Address, wallet: Address, tag: string, bump: byte)

  datatype DecodeError = InvalidLength | DiscriminatorMismatch | InvalidPadding | NonCanonicalTag

  datatype Decoded = Ok(account: TagAccount) | Failed(error: DecodeError)

  function Decode(lower: string -> string, data: seq<byte>): Decoded {
    if |data| != TAG_ACCOUNT_SIZE then Failed(InvalidLength)
    else if data[..OWNER_OFFSET] != DISCRIMINATOR then Failed(DiscriminatorMismatch)
    else
      var tagBuffer, tagLen := data[TAG_OFFSET..TAG_LEN_OFFSET], data[TAG_LEN_OFFSET] as nat;
      if tagLen > MAX_TAG_LENGTH then Failed(InvalidLength)
      else if !AllZero(tagBuffer[tagLen..]) then Failed(InvalidPadding)
      else
        var rawTag := StringOf(tagBuffer[..tagLen]);
        if Normalize(lower, rawTag) != Accepted(rawTag) then Failed(NonCanonicalTag)
        else Ok(TagAccount(data[OWNER_OFFSET..WALLET_OFFSET], data[WALLET_OFFSET..TAG_OFFSET],
                           rawTag, data[BUMP_OFFSET]))
  }

  predicate AllZero(bs: seq<byte>) { forall i :: 0 <= i < |bs| ==> bs[i] == 0 }

  method BytesEqual(a: seq<byte>, b: seq<byte>) returns (equal: bool)
    ensures equal <==> a == b
  {
    if |a| != |b| { return false; }
    for i := 0 to |a|
      invariant a[..i] == b[..i]
    {
      if a[i] != b[i] { return false; }
    }
    equal := true;
  }

  /** The decoder, loop by loop. */
  method DecodeTagAccount(lower: string -> string, data: seq<byte>) returns (r: Decoded)
    ensures r == Decode(lower, data)
  {
    if |data| != TAG_ACCOUNT_SIZE { return Failed(InvalidLength); }
    var matches := BytesEqual(data[..OWNER_OFFSET], DISCRIMINATOR);
    if !matches { return Failed(DiscriminatorMismatch); }
    var owner, wallet := data[OWNER_OFFSET..WALLET_OFFSET], data[WALLET_OFFSET..TAG_OFFSET];
    var tagBuffer := data[TAG_OFFSET..TAG_LEN_OFFSET];
    var tagLen, bump := data[TAG_LEN_OFFSET] as nat, data[BUMP_OFFSET];
    if tagLen > MAX_TAG_LENGTH { return Failed(InvalidLength); }
    for i := tagLen to MAX_TAG_LENGTH
      invariant forall j :: tagLen <= j < i ==> tagBuffer[j] == 0
    {
      if tagBuffer[i] != 0 {
        assert tagBuffer[tagLen..][i - tagLen] != 0;
        return Failed(InvalidPadding);
      }
    }
    var rawTag := "";
    for i := 0 to tagLen
      invariant rawTag == StringOf(tagBuffer[..i])
    {
      rawTag := rawTag + [tagBuffer[i] as int as char];
    }
    var normalized := Normalize(lower, rawTag);
    if normalized.Rejected? { return Failed(NonCanonicalTag); }
    if normalized.tag != rawTag { return Failed(NonCanonicalTag); }
    r := Ok(TagAccount(owner, wallet, normalized.tag, bump));
  }

  // ---------------------------------------------------------------------
  // The layout and the decoder are inverse to each other
  // ---------------------------------------------------------------------

  function Zeros(n: nat): (z: seq<byte>)
    ensures |z| == n && AllZero(z)
  {
    seq(n, _ => 0)
  }

  function Padded(tag: seq<byte>): (p: seq<byte>)
    requires |tag| <= MAX_TAG_LENGTH
    ensures |p| == MAX_TAG_LENGTH
  {
    tag + Zeros(MAX_TAG_LENGTH - |tag|)
  }

  lemma PaddedIs(tag: seq<byte>, p: seq<byte>)
    requires |tag| <= MAX_TAG_LENGTH == |p| && p[..|tag|] == tag
    requires forall i :: |tag| <= i < |p| ==> p[i] == 0
    ensures p == Padded(tag)
  {
    assert p == p[..|tag|] + p[|tag|..];
    var z := Zeros(MAX_TAG_LENGTH - |tag|);
    assert forall i :: 0 <= i < |z| ==> z[i] == 0;
    assert p[|tag|..] == z;
  }

  /** The account the program keeps for a canonical tag. */
  function Stored(a: TagAccount): Account
    requires CanonicalTag(a.tag)
  {
    CanonicalIsAscii(a.tag);
    Account(a.owner, a.wallet, Padded(BytesOf(a.tag)), |a.tag| as byte, a.bump)
  }

  lemma CanonicalIsAscii(tag: string)
    requires AllTagChars(tag)
    ensures IsAscii(tag)
  {
  }

  lemma SerializedParts(a: Account)
    requires |a.tag| == MAX_TAG_LENGTH
    ensures var data := Serialize(a);
            |data| == TAG_ACCOUNT_SIZE && data[..OWNER_OFFSET] == DISCRIMINATOR &&
            data[OWNER_OFFSET..WALLET_OFFSET] == a.owner && data[WALLET_OFFSET..TAG_OFFSET] == a.wallet &&
            data[TAG_OFFSET..TAG_LEN_OFFSET] == a.tag && data[TAG_LEN_OFFSET] == a.tagLen &&
            data[BUMP_OFFSET] == a.bump
  {
  }

  lemma DecodeStored(lower: string -> string, a: TagAccount)
    requires LowersAscii(lower) && CanonicalTag(a.tag)
    ensures Decode(lower, Serialize(Stored(a))) == Ok(a)
  {
    var s := Stored(a);
    SerializedParts(s);
    BytesRoundTrip(a.tag);
    NormalizeFixpoints(lower, a.tag);
    assert s.tag[..|a.tag|] == BytesOf(a.tag) && s.tag[|a.tag|..] == Zeros(MAX_TAG_LENGTH - |a.tag|);
  }

  lemma TagDecoded(lower: string -> string, data: seq<byte>)
    requires LowersAscii(lower) && Decode(lower, data).Ok?
    ensures var a := Decode(lower, data).account;
            CanonicalTag(a.tag) && |a.tag| == data[TAG_LEN_OFFSET] as nat &&
            data[TAG_OFFSET..TAG_LEN_OFFSET] == Stored(a).tag
  {
    var a := Decode(lower, data).account;
    NormalizeFixpoints(lower, a.tag);
    var tagBuffer, tagLen := data[TAG_OFFSET..TAG_LEN_OFFSET], data[TAG_LEN_OFFSET] as nat;
    StringRoundTrip(tagBuffer[..tagLen]);
    assert tagBuffer == tagBuffer[..tagLen] + tagBuffer[tagLen..];
    assert tagBuffer[tagLen..] == Zeros(MAX_TAG_LENGTH - tagLen);
  }

  lemma StoredDecoded(lower: string -> string, data: seq<byte>)
    requires LowersAscii(lower) && Decode(lower, data).Ok?
    ensures var a := Decode(lower, data).account; CanonicalTag(a.tag) && data == Serialize(Stored(a))
  {
    var a := Decode(lower, data).account;
    TagDecoded(lower, data);
    assert data == data[..OWNER_OFFSET] + data[OWNER_OFFSET..WALLET_OFFSET] + data[WALLET_OFFSET..TAG_OFFSET] +
                   data[TAG_OFFSET..TAG_LEN_OFFSET] + [data[TAG_LEN_OFFSET]] + [data[BUMP_OFFSET]];
  }

  /** The decoder accepts exactly the layouts of canonical tags, and gives each
      of them back its own account: decoding is a bijection. */
  lemma DecodeExactly(lower: string -> string, data: seq<byte>, a: TagAccount)
    requires LowersAscii(lower)
    ensures Decode(lower, data) == Ok(a) <==> CanonicalTag(a.tag) && data == Serialize(Stored(a))
  {
    if Decode(lower, data) == Ok(a) {
      StoredDecoded(lower, data);
    }
    if CanonicalTag(a.tag) {
      DecodeStored(lower, a);
    }
  }

  /** Why the decoder refuses a buffer, in the order of its checks. */
  lemma FailedExactly(lower: string -> string, data: seq<byte>)
    requires LowersAscii(lower)
    ensures Decode(lower, data) == Failed(InvalidLength) <==>
            |data| != 94 || (data[..8] == DISCRIMINATOR && 20 < data[92])
    ensures Decode(lower, data) == Failed(DiscriminatorMismatch) <==> |data| == 94 && data[..8] != DISCRIMINATOR
    ensures Decode(lower, data) == Failed(InvalidPadding) <==>
            |data| == 94 && data[..8] == DISCRIMINATOR && data[92] <= 20 &&
            exists i :: 72 + data[92] as nat <= i < 92 && data[i] != 0
    ensures Decode(lower, data) == Failed(NonCanonicalTag) <==>
            |data| == 94 && data[..8] == DISCRIMINATOR && data[92] <= 20 &&
            (forall i :: 72 + data[92] as nat <= i < 92 ==> data[i] == 0) &&
            !CanonicalTag(StringOf(data[72..72 + data[92] as nat]))
  {
    if |data| == 94 && data[92] <= 20 {
      var tagBuffer, n := data[72..92], data[92] as nat;
      assert tagBuffer[..n] == data[72..72 + n];
      NormalizeFixpoints(lower, StringOf(tagBuffer[..n]));
      assert AllZero(tagBuffer[n..]) <==> forall i :: 72 + n <= i < 92 ==> data[i] == 0 by {
        assert forall i :: 72 + n <= i < 92 ==> data[i] == tagBuffer[n..][i - 72 - n];
      }
    }
  }

  // ---------------------------------------------------------------------
  // The program
  // ---------------------------------------------------------------------

  /** Program-derived addresses: the search for a bump, and the address of a
      given bump. Hashing is left uninterpreted. */
  datatype Pda = Pda(find: seq<byte> -> (Address, byte), create: (seq<byte>, byte) -> Option<Address>)

  ghost predicate Lawful(pda: Pda) {
    forall seed :: pda.create(seed, pda.find(seed).1) == Some(pda.find(seed).0)
  }

  type Ledger = map<Address, Account>

  datatype Instruction =
    | Register(tag: seq<byte>, owner: Address)
    | UpdateWallet(account: Address, signer: Address, wallet: Address)
    | TransferOwnership(account: Address, signer: Address, newOwner: Address)

  /** The constraints on an existing account: its own seeds and its owner's signature. */
  predicate Authorized(pda: Pda, ledger: Ledger, account: Address, signer: Address) {
    account in ledger && ledger[account].owner == signer &&
    ledger[account].tagLen as nat <= |ledger[account].tag| &&
    pda.create(ledger[account].tag[..ledger[account].tagLen], ledger[account].bump) == Some(account)
  }

  /** A failing instruction leaves the ledger as it was. */
  function Execute(pda: Pda, ledger: Ledger, i: Instruction): Ledger {
    match i
    case Register(tag, owner) =>
      var (account, bump) := pda.find(tag);
      if Validate(tag) != Valid || account in ledger then ledger
      else ledger[account := Account(owner, owner, Padded(tag), |tag| as byte, bump)]
    case UpdateWallet(account, signer, wallet) =>
      if Authorized(pda, ledger, account, signer) then ledger[account := ledger[account].(wallet := wallet)]
      else ledger
    case TransferOwnership(account, signer, newOwner) =>
      if Authorized(pda, ledger, account, signer) then ledger[account := ledger[account].(owner := newOwner)]
      else ledger
  }

  class TagRegistry {
    const pda: Pda
    var ledger: Ledger

    constructor (pda: Pda)
      ensures this.pda == pda && ledger == map[]
    {
      this.pda := pda;
      ledger := map[];
    }

    method Register(tag: seq<byte>, owner: Address) returns (ok: bool)
      modifies this
      ensures ledger == Execute(pda, old(ledger), Instruction.Register(tag, owner))
      ensures ok <==> Validate(tag) == Valid && pda.find(tag).0 !in old(ledger)
      ensures ok ==> var (account, bump) := pda.find(tag);
                     account in ledger && ledger[account].owner == ledger[account].wallet == owner &&
                     ledger[account].bump == bump && ledger[account].tag[..|tag|] == tag
    {
      var (account, bump) := pda.find(tag);
      if account in ledger { return false; }
      if Validate(tag) != Valid { return false; }
      var padded := new byte[MAX_TAG_LENGTH](_ => 0);
      for i := 0 to |tag|
        modifies padded
        invariant padded[..i] == tag[..i] && forall j :: i <= j < MAX_TAG_LENGTH ==> padded[j] == 0
      {
        padded[i] := tag[i];
      }
      PaddedIs(tag, padded[..]);
      ledger := ledger[account := Account(owner, owner, padded[..], |tag| as byte, bump)];
      ok := true;
    }

    method UpdateWallet(account: Address, signer: Address, wallet: Address) returns (ok: bool)
      modifies this
      ensures ledger == Execute(pda, old(ledger), Instruction.UpdateWallet(account, signer, wallet))
      ensures ok <==> Authorized(pda, old(ledger), account, signer)
      ensures ok ==> account in ledger && ledger[account].wallet == wallet && ledger[account].owner == signer
    {
      if !Authorized(pda, ledger, account, signer) { return false; }
      ledger := ledger[account := ledger[account].(wallet := wallet)];
      ok := true;
    }

    method TransferOwnership(account: Address, signer: Address, newOwner: Address) returns (ok: bool)
      modifies this
      ensures ledger == Execute(pda, old(ledger), Instruction.TransferOwnership(account, signer, newOwner))
      ensures ok <==> Authorized(pda, old(ledger), account, signer)
      ensures ok ==> account in ledger && ledger[account].owner == newOwner &&
                     ledger[account].wallet == old(ledger)[account].wallet
    {
      if !Authorized(pda, ledger, account, signer) { return false; }
      ledger := ledger[account := ledger[account].(owner := newOwner)];
      ok := true;
    }
  }

  function ExecuteAll(pda: Pda, ledger: Ledger, run: seq<Instruction>): Ledger {
    if run == [] then ledger else Execute(pda, ExecuteAll(pda, ledger, run[..|run| - 1]), run[|run| - 1])
  }

  // ---------------------------------------------------------------------
  // What the indexer sees of a reachable ledger
  // ---------------------------------------------------------------------

  /** `account` holds the canonical tag `tag` and sits at that tag's address. */
  predicate Holds(pda: Pda, ledger: Ledger, account: Address, tag: string) {
    account in ledger && CanonicalTag(tag) && IsAscii(tag) &&
    pda.find(BytesOf(tag)) == (account, ledger[account].bump) &&
    ledger[account].tag == Padded(BytesOf(tag)) && ledger[account].tagLen as nat == |tag|
  }

  ghost predicate WellFormed(pda: Pda, ledger: Ledger) {
    forall account :: account in ledger ==> exists tag :: Holds(pda, ledger, account, tag)
  }

  /** Verified observations of the indexer. */
  datatype Change = Change(tag: string, owner: Address, wallet: Address, bump: byte, slot: nat)

  function DecodeAndVerify(lower: string -> string, pda: Pda, address: Address, data: seq<byte>, slot: nat)
    : Option<Change>
  {
    match Decode(lower, data)
    case Failed(_) => None
    case Ok(a) =>
      if !IsAscii(a.tag) || pda.find(BytesOf(a.tag)).0 != address then None
      else Some(Change(a.tag, a.owner, a.wallet, a.bump, slot))
  }

  lemma ExecuteWellFormed(pda: Pda, ledger: Ledger, i: Instruction)
    requires WellFormed(pda, ledger)
    ensures WellFormed(pda, Execute(pda, ledger, i))
  {
    var after := Execute(pda, ledger, i);
    forall account | account in after ensures exists tag :: Holds(pda, after, account, tag) {
      if account in ledger {
        var tag :| Holds(pda, ledger, account, tag);
        assert Holds(pda, after, account, tag);
      } else {
        var tag := StringOf(i.tag);
        StringRoundTrip(i.tag);
        assert forall k :: 0 <= k < |tag| ==> IsTagByte(i.tag[k]);
        assert Holds(pda, after, account, tag);
      }
    }
  }

  lemma {:induction false} ReachableWellFormed(pda: Pda, run: seq<Instruction>)
    ensures WellFormed(pda, ExecuteAll(pda, map[], run))
  {
    if run != [] {
      ReachableWellFormed(pda, run[..|run| - 1]);
      ExecuteWellFormed(pda, ExecuteAll(pda, map[], run[..|run| - 1]), run[|run| - 1]);
    }
  }

  /** Every account of every reachable program state passes verification at its
      own address, and nowhere else. */
  lemma ReachableVerifies(lower: string -> string, pda: Pda, run: seq<Instruction>, account: Address,
                          address: Address, slot: nat)
    requires LowersAscii(lower) && account in ExecuteAll(pda, map[], run)
    ensures var a := ExecuteAll(pda, map[], run)[account];
            var r := DecodeAndVerify(lower, pda, address, Serialize(a), slot);
            (r.Some? <==> address == account) &&
            (r.Some? ==> r.value.owner == a.owner && r.value.wallet == a.wallet && r.value.bump == a.bump &&
                         CanonicalTag(r.value.tag) && Holds(pda, ExecuteAll(pda, map[], run), account, r.value.tag))
  {
    ReachableWellFormed(pda, run);
    var ledger := ExecuteAll(pda, map[], run);
    var tag :| Holds(pda, ledger, account, tag);
    HeldVerifies(lower, pda, ledger, account, tag, address, slot);
  }

  lemma HeldVerifies(lower: string -> string, pda: Pda, ledger: Ledger, account: Address, tag: string,
                     address: Address, slot: nat)
    requires LowersAscii(lower) && Holds(pda, ledger, account, tag)
    ensures var a := ledger[account];
            DecodeAndVerify(lower, pda, address, Serialize(a), slot) ==
            if address == account then Some(Change(tag, a.owner, a.wallet, a.bump, slot)) else None
  {
    var a := ledger[account];
    var decoded := TagAccount(a.owner, a.wallet, tag, a.bump);
    assert Stored(decoded) == a;
    DecodeStored(lower, decoded);
  }

  /** Exactly what verifies: the layout of an account with a canonical tag, at the
      address derived from that tag. The stored bump is not looked at. */
  lemma VerifiesExactly(lower: string -> string, pda: Pda, address: Address, data: seq<byte>, slot: nat, c: Change)
    requires LowersAscii(lower)
    ensures DecodeAndVerify(lower, pda, address, data, slot) == Some(c) <==>
            c.slot == slot && CanonicalTag(c.tag) && IsAscii(c.tag) && pda.find(BytesOf(c.tag)).0 == address &&
            data == Serialize(Stored(TagAccount(c.owner, c.wallet, c.tag, c.bump)))
  {
    var a := TagAccount(c.owner, c.wallet, c.tag, c.bump);
    DecodeExactly(lower, data, a);
    if CanonicalTag(c.tag) {
      CanonicalIsAscii(c.tag);
    }
  }

  /** In a reachable ledger the seeds constraint never fails: an account obeys
      exactly its owner. */
  lemma AuthorizedExactly(pda: Pda, run: seq<Instruction>, account: Address, signer: Address)
    requires Lawful(pda)
    ensures var ledger := ExecuteAll(pda, map[], run);
            Authorized(pda, ledger, account, signer) <==> account in ledger && ledger[account].owner == signer
  {
    ReachableWellFormed(pda, run);
    var ledger := ExecuteAll(pda, map[], run);
    if account in ledger {
      var tag :| Holds(pda, ledger, account, tag);
      assert Padded(BytesOf(tag))[..|tag|] == BytesOf(tag);
    }
  }

  /** No instruction removes an account or changes its tag or bump; only its
      owner's signature changes its owner or wallet. */
  lemma {:induction false} AccountsStay(pda: Pda, ledger: Ledger, run: seq<Instruction>, account: Address)
    requires account in ledger
    ensures var after := ExecuteAll(pda, ledger, run);
            account in after && after[account].tag == ledger[account].tag &&
            after[account].tagLen == ledger[account].tagLen && after[account].bump == ledger[account].bump
    ensures (forall i :: 0 <= i < |run| ==> !run[i].Register? ==> run[i].signer != ledger[account].owner) ==>
            ExecuteAll(pda, ledger, run)[account] == ledger[account]
  {
    if run != [] {
      AccountsStay(pda, ledger, run[..|run| - 1], account);
    }
  }

  // ---------------------------------------------------------------------
  // What whole runs leave in each column
  // ---------------------------------------------------------------------

  /** Instruction `i` of the run carries an authorized new wallet for the account. */
  predicate SetsWallet(pda: Pda, run: seq<Instruction>, i: nat, account: Address) {
    i < |run| && run[i].UpdateWallet? && run[i].account == account &&
    Authorized(pda, ExecuteAll(pda, map[], run[..i]), account, run[i].signer)
  }

  /** Instruction `i` of the run carries an authorized new owner for the account. */
  predicate SetsOwner(pda: Pda, run: seq<Instruction>, i: nat, account: Address) {
    i < |run| && run[i].TransferOwnership? && run[i].account == account &&
    Authorized(pda, ExecuteAll(pda, map[], run[..i]), account, run[i].signer)
  }

  /** Instruction `i` of the run registers a valid tag at this free address. */
  predicate Registers(pda: Pda, run: seq<Instruction>, i: nat, account: Address) {
    i < |run| && run[i].Register? && Validate(run[i].tag) == Valid && pda.find(run[i].tag).0 == account &&
    account !in ExecuteAll(pda, map[], run[..i])
  }

  lemma RunNext(pda: Pda, run: seq<Instruction>)
    requires run != []
    ensures ExecuteAll(pda, map[], run) == Execute(pda, ExecuteAll(pda, map[], run[..|run| - 1]), run[|run| - 1])
    ensures forall i :: 0 <= i < |run| - 1 ==> run[..|run| - 1][..i] == run[..i]
  {
  }

  /** The last authorized update decides the wallet, whatever comes after it. */
  lemma {:induction false} WalletIsLastSet(pda: Pda, run: seq<Instruction>, account: Address, i: nat)
    requires SetsWallet(pda, run, i, account) && forall j: nat :: i < j ==> !SetsWallet(pda, run, j, account)
    ensures account in ExecuteAll(pda, map[], run) && ExecuteAll(pda, map[], run)[account].wallet == run[i].wallet
  {
    var front := run[..|run| - 1];
    RunNext(pda, run);
    if i < |front| {
      forall j: nat | i < j ensures !SetsWallet(pda, front, j, account) {
        assert !SetsWallet(pda, run, j, account);
      }
      WalletIsLastSet(pda, front, account, i);
      assert !SetsWallet(pda, run, |front|, account);
    }
  }

  /** Until there is one, it is the registrant. */
  lemma {:induction false} WalletNeverSet(pda: Pda, run: seq<Instruction>, account: Address, r: nat)
    requires Registers(pda, run, r, account) && forall j: nat :: !SetsWallet(pda, run, j, account)
    ensures account in ExecuteAll(pda, map[], run) && ExecuteAll(pda, map[], run)[account].wallet == run[r].owner
  {
    var front := run[..|run| - 1];
    RunNext(pda, run);
    if r < |front| {
      forall j: nat ensures !SetsWallet(pda, front, j, account) {
        assert !SetsWallet(pda, run, j, account);
      }
      WalletNeverSet(pda, front, account, r);
      assert !SetsWallet(pda, run, |front|, account);
    }
  }

  /** The last authorized transfer decides the owner, whatever comes after it. */
  lemma {:induction false} OwnerIsLastSet(pda: Pda, run: seq<Instruction>, account: Address, i: nat)
    requires SetsOwner(pda, run, i, account) && forall j: nat :: i < j ==> !SetsOwner(pda, run, j, account)
    ensures account in ExecuteAll(pda, map[], run) && ExecuteAll(pda, map[], run)[account].owner == run[i].newOwner
  {
    var front := run[..|run| - 1];
    RunNext(pda, run);
    if i < |front| {
      forall j: nat | i < j ensures !SetsOwner(pda, front, j, account) {
        assert !SetsOwner(pda, run, j, account);
      }
      OwnerIsLastSet(pda, front, account, i);
      assert !SetsOwner(pda, run, |front|, account);
    }
  }

  /** Until there is one, it is the registrant. */
  lemma {:induction false} OwnerNeverSet(pda: Pda, run: seq<Instruction>, account: Address, r: nat)
    requires Registers(pda, run, r, account) && forall j: nat :: !SetsOwner(pda, run, j, account)
    ensures account in ExecuteAll(pda, map[], run) && ExecuteAll(pda, map[], run)[account].owner == run[r].owner
  {
    var front := run[..|run| - 1];
    RunNext(pda, run);
    if r < |front| {
      forall j: nat ensures !SetsOwner(pda, front, j, account) {
        assert !SetsOwner(pda, run, j, account);
      }
      OwnerNeverSet(pda, front, account, r);
      assert !SetsOwner(pda, run, |front|, account);
    }
  }

  /** Every account was registered, with the tag it still carries. */
  lemma {:induction false} RegisteredOnce(pda: Pda, run: seq<Instruction>, account: Address) returns (r: nat)
    requires account in ExecuteAll(pda, map[], run)
    ensures Registers(pda, run, r, account)
  {
    RunNext(pda, run);
    if account in ExecuteAll(pda, map[], run[..|run| - 1]) {
      r := RegisteredOnce(pda, run[..|run| - 1], account);
    } else {
      r := |run| - 1;
    }
  }

  /** An instruction touches one account, and of an existing one a single column. */
  lemma OneColumn(pda: Pda, ledger: Ledger, i: Instruction, account: Address)
    requires account in ledger
    ensures var after := Execute(pda, ledger, i);
            account in after && after[account].tag == ledger[account].tag &&
            (!i.TransferOwnership? || i.account != account ==> after[account].owner == ledger[account].owner) &&
            (!i.UpdateWallet? || i.account != account ==> after[account].wallet == ledger[account].wallet)
  {
  }
}
