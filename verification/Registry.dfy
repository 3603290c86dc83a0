/** The participant registry program: Borsh encodings of its account and instructions, the processor
    over account buffers, and what holds of a participant account over any run of transactions. */
module Registry {
  import opened Collections

  type byte = n: nat | n < 256

  const KEY_LEN: nat := 32
  const PARTICIPANT_LEN: nat := 65

  type Key = k: seq<byte> | |k| == KEY_LEN witness seq(KEY_LEN, i => 0)

  datatype ParticipantState = Uninitialized | Pending | Rejected | Approved

  datatype Participant = Participant(testnetIdentity: Key, mainnetIdentity: Key, state: ParticipantState)

  datatype Instruction = Apply | Withdraw | Approve | Reject | Rewrite(participant: Participant)

  datatype ProgramError =
    | InvalidInstructionData
    | NotEnoughAccountKeys
    | InvalidAccountData
    | AccountAlreadyInitialized
    | MissingRequiredSignature
    | InvalidArgument

  // ---------- Borsh: fields in order, arrays of fixed size as they are, an enum as its tag ----------

  function Tag(state: ParticipantState): byte {
    match state
    case Uninitialized => 0
    case Pending => 1
    case Rejected => 2
    case Approved => 3
  }

  function StateOf(tag: byte): Option<ParticipantState> {
    match tag
    case 0 => Some(Uninitialized)
    case 1 => Some(Pending)
    case 2 => Some(Rejected)
    case 3 => Some(Approved)
    case _ => None
  }

  function PackParticipant(p: Participant): seq<byte> {
    p.testnetIdentity + p.mainnetIdentity + [Tag(p.state)]
  }

  /** Bytes after the encoding are ignored. */
  function ReadParticipant(src: seq<byte>): Option<Participant> {
    if |src| < PARTICIPANT_LEN then None
    else
      var state := StateOf(src[PARTICIPANT_LEN - 1]);
      if state.None? then None
      else Some(Participant(src[..KEY_LEN], src[KEY_LEN..PARTICIPANT_LEN - 1], state.value))
  }

  function UnpackParticipant(src: seq<byte>): Result<Participant, ProgramError> {
    match ReadParticipant(src)
    case None => Err(InvalidAccountData)
    case Some(p) => Ok(p)
  }

  function PackInstruction(instruction: Instruction): seq<byte> {
    match instruction
    case Apply => [0]
    case Withdraw => [1]
    case Approve => [2]
    case Reject => [3]
    case Rewrite(p) => [4] + PackParticipant(p)
  }

  function UnpackInstruction(src: seq<byte>): Result<Instruction, ProgramError> {
    if src == [] then Err(InvalidInstructionData)
    else
      match src[0]
      case 0 => Ok(Apply)
      case 1 => Ok(Withdraw)
      case 2 => Ok(Approve)
      case 3 => Ok(Reject)
      case 4 =>
        (match ReadParticipant(src[1..])
         case None => Err(InvalidInstructionData)
         case Some(p) => Ok(Rewrite(p)))
      case _ => Err(InvalidInstructionData)
  }

  /** What is packed is read back, whatever follows. */
  lemma ParticipantRoundTrip(p: Participant, rest: seq<byte>)
    ensures |PackParticipant(p)| == PARTICIPANT_LEN
    ensures UnpackParticipant(PackParticipant(p) + rest) == Ok(p)
  {
    var src := PackParticipant(p) + rest;
    assert src[..KEY_LEN] == p.testnetIdentity;
    assert src[KEY_LEN..PARTICIPANT_LEN - 1] == p.mainnetIdentity;
  }

  /** What is read is packed as it was, so every participant has one encoding. */
  lemma ParticipantIsCanonical(src: seq<byte>)
    requires UnpackParticipant(src).Ok?
    ensures PackParticipant(UnpackParticipant(src).value) == src[..PARTICIPANT_LEN]
  {
    assert src[..PARTICIPANT_LEN]
        == src[..KEY_LEN] + src[KEY_LEN..PARTICIPANT_LEN - 1] + [src[PARTICIPANT_LEN - 1]];
  }

  /** The bytes: the testnet identity, the mainnet identity, and one byte for the state; an instruction is
      one byte, followed by the participant for a rewrite. */
  lemma WireFormat(p: Participant)
    ensures var bytes := PackParticipant(p);
            && |bytes| == 65 && bytes[..32] == p.testnetIdentity && bytes[32..64] == p.mainnetIdentity
            && (p.state == Uninitialized <==> bytes[64] == 0) && (p.state == Pending <==> bytes[64] == 1)
            && (p.state == Rejected <==> bytes[64] == 2) && (p.state == Approved <==> bytes[64] == 3)
    ensures PackInstruction(Apply) == [0] && PackInstruction(Withdraw) == [1]
    ensures PackInstruction(Approve) == [2] && PackInstruction(Reject) == [3]
    ensures PackInstruction(Rewrite(p))[0] == 4 && PackInstruction(Rewrite(p))[1..] == PackParticipant(p)
  {
    var bytes := PackParticipant(p);
    assert bytes[..32] == p.testnetIdentity && bytes[32..64] == p.mainnetIdentity;
  }

  lemma RewriteIsRead(tail: seq<byte>, p: Participant)
    requires UnpackParticipant(tail) == Ok(p)
    ensures UnpackInstruction([4] + tail) == Ok(Rewrite(p))
  {
    assert ([4] + tail)[1..] == tail;
  }

  lemma RewriteRoundTrip(p: Participant, rest: seq<byte>)
    ensures UnpackInstruction([4] + PackParticipant(p) + rest) == Ok(Rewrite(p))
  {
    ParticipantRoundTrip(p, rest);
    RewriteIsRead(PackParticipant(p) + rest, p);
    assert [4] + PackParticipant(p) + rest == [4] + (PackParticipant(p) + rest);
  }

  lemma InstructionRoundTrip(instruction: Instruction, rest: seq<byte>)
    ensures UnpackInstruction(PackInstruction(instruction) + rest) == Ok(instruction)
  {
    match instruction {
      case Rewrite(p) => RewriteRoundTrip(p, rest);
      case _ => assert (PackInstruction(instruction) + rest)[0] == PackInstruction(instruction)[0];
    }
  }

  lemma InstructionIsCanonical(src: seq<byte>)
    requires UnpackInstruction(src).Ok?
    ensures PackInstruction(UnpackInstruction(src).value) <= src
  {
    var instruction := UnpackInstruction(src).value;
    if instruction.Rewrite? {
      ParticipantIsCanonical(src[1..]);
      assert PackInstruction(instruction) == src[..1] + src[1..][..PARTICIPANT_LEN];
    }
  }

  // ---------- The processor as a state machine ----------

  /** An account as far as a transaction refers to it. */
  datatype AccountMeta = AccountMeta(key: Key, isSigner: bool)

  /** The first account is the participant's. */
  datatype Transaction = Transaction(accounts: seq<AccountMeta>, input: seq<byte>)

  function AuthenticateAdmin(admin: Key, account: AccountMeta): Option<ProgramError> {
    if account.key != admin then Some(InvalidArgument)
    else if !account.isSigner then Some(MissingRequiredSignature)
    else None
  }

  function ByAdmin(admin: Key, others: seq<AccountMeta>, p: Participant): Result<Participant, ProgramError> {
    if |others| < 1 then Err(NotEnoughAccountKeys)
    else
      var error := AuthenticateAdmin(admin, others[0]);
      if error.Some? then Err(error.value) else Ok(p)
  }

  function Step(
    admin: Key, p: Participant, instruction: Instruction, others: seq<AccountMeta>): Result<Participant, ProgramError>
  {
    match instruction
    case Apply =>
      if p.state != Uninitialized then Err(AccountAlreadyInitialized)
      else if |others| < 2 then Err(NotEnoughAccountKeys)
      else if !others[0].isSigner || !others[1].isSigner then Err(MissingRequiredSignature)
      else Ok(Participant(others[1].key, others[0].key, Pending))
    case Withdraw =>
      if |others| < 2 then Err(NotEnoughAccountKeys)
      else if !others[0].isSigner || others[0].key !in {p.testnetIdentity, p.mainnetIdentity}
      then Err(MissingRequiredSignature)
      else Ok(p)
    case Approve => ByAdmin(admin, others, p.(state := Approved))
    case Reject => ByAdmin(admin, others, p.(state := Rejected))
    case Rewrite(q) => ByAdmin(admin, others, q)
  }

  function Decide(admin: Key, data: seq<byte>, tx: Transaction): Result<Participant, ProgramError> {
    var instruction := UnpackInstruction(tx.input);
    if instruction.Err? then Err(instruction.error)
    else if tx.accounts == [] then Err(NotEnoughAccountKeys)
    else
      var p := UnpackParticipant(data);
      if p.Err? then Err(p.error)
      else
        var q := Step(admin, p.value, instruction.value, tx.accounts[1..]);
        if q.Ok? && q.value.testnetIdentity == q.value.mainnetIdentity then Err(InvalidAccountData) else q
  }

  /** The account's data after a transaction; a failed one changes nothing. */
  function After(admin: Key, data: seq<byte>, tx: Transaction): seq<byte> {
    var r := Decide(admin, data, tx);
    if r.Err? || |data| < PARTICIPANT_LEN then data else PackParticipant(r.value) + data[PARTICIPANT_LEN..]
  }

  function AfterAll(admin: Key, data: seq<byte>, txs: seq<Transaction>): seq<byte>
    decreases |txs|
  {
    if txs == [] then data else AfterAll(admin, After(admin, data, txs[0]), txs[1..])
  }

  // ---------- The processor over account buffers ----------

  class AccountInfo {
    const key: Key
    const isSigner: bool
    const data: array<byte>
    var lamports: nat

    constructor (key: Key, isSigner: bool, data: array<byte>, lamports: nat)
      ensures this.key == key && this.isSigner == isSigner && this.data == data && this.lamports == lamports
    {
      this.key, this.isSigner, this.data, this.lamports := key, isSigner, data, lamports;
    }

    function ToMeta(): AccountMeta {
      AccountMeta(key, isSigner)
    }
  }

  function Metas(accounts: seq<AccountInfo>): seq<AccountMeta> {
    seq(|accounts|, i requires 0 <= i < |accounts| => accounts[i].ToMeta())
  }

  method PackIntoSlice(p: Participant, dst: array<byte>)
    requires dst.Length >= PARTICIPANT_LEN
    modifies dst
    ensures dst[..] == PackParticipant(p) + old(dst[..])[PARTICIPANT_LEN..]
  {
    var data := PackParticipant(p);
    for i := 0 to |data|
      invariant forall j :: 0 <= j < i ==> dst[j] == data[j]
      invariant forall j :: i <= j < dst.Length ==> dst[j] == old(dst[j])
    {
      dst[i] := data[i];
    }
  }

  /** The processor does to the participant account's buffer what the state machine says. Lamports move
      only on a withdrawal: all the participant account holds goes to the refundee, and is lost if
      that is the same account. */
  method ProcessInstruction(
    admin: Key, accounts: seq<AccountInfo>, input: seq<byte>)
    returns (error: Option<ProgramError>)
    modifies accounts, set a | a in accounts :: a.data
    ensures var data := if accounts == [] then [] else old(accounts[0].data[..]);
            var r := Decide(admin, data, Transaction(Metas(accounts), input));
            error == if r.Err? then Some(r.error) else None
    ensures accounts != [] ==>
              accounts[0].data[..] == After(admin, old(accounts[0].data[..]), Transaction(Metas(accounts), input))
    ensures forall a :: a in accounts && a.data != accounts[0].data ==> a.data[..] == old(a.data[..])
    ensures error.None? && UnpackInstruction(input) == Ok(Withdraw) ==>
              && |accounts| > 2 && accounts[0].lamports == 0
              && (accounts[2] != accounts[0] ==>
                accounts[2].lamports == old(accounts[2].lamports) + old(accounts[0].lamports))
              && forall a :: a in accounts && a != accounts[0] && a != accounts[2] ==> a.lamports == old(a.lamports)
    ensures UnpackInstruction(input) != Ok(Withdraw) ==> forall a :: a in accounts ==> a.lamports == old(a.lamports)
  {
    error := None;
    var instruction := UnpackInstruction(input);
    if instruction.Err? {
      return Some(instruction.error);
    }
    if |accounts| == 0 {
      return Some(NotEnoughAccountKeys);
    }
    var info := accounts[0];
    var unpacked := UnpackParticipant(info.data[..]);
    if unpacked.Err? {
      return Some(unpacked.error);
    }
    var participant := unpacked.value;
    ghost var others := Metas(accounts)[1..];
    assert forall i :: 0 <= i < |others| ==> others[i] == accounts[i + 1].ToMeta();
    match instruction.value {
      case Apply =>
        if participant.state != Uninitialized {
          return Some(AccountAlreadyInitialized);
        }
        if |accounts| < 3 {
          return Some(NotEnoughAccountKeys);
        }
        if !accounts[1].isSigner {
          return Some(MissingRequiredSignature);
        }
        if !accounts[2].isSigner {
          return Some(MissingRequiredSignature);
        }
        participant := Participant(accounts[2].key, accounts[1].key, Pending);
      case Withdraw =>
        if |accounts| < 3 {
          return Some(NotEnoughAccountKeys);
        }
        if !accounts[1].isSigner {
          return Some(MissingRequiredSignature);
        }
        if accounts[1].key != participant.testnetIdentity && accounts[1].key != participant.mainnetIdentity {
          return Some(MissingRequiredSignature);
        }
        accounts[2].lamports := accounts[2].lamports + info.lamports;
        info.lamports := 0;
      case Approve =>
        if |accounts| < 2 {
          return Some(NotEnoughAccountKeys);
        }
        error := AuthenticateAdmin(admin, accounts[1].ToMeta());
        if error.Some? {
          return;
        }
        participant := participant.(state := Approved);
      case Reject =>
        if |accounts| < 2 {
          return Some(NotEnoughAccountKeys);
        }
        error := AuthenticateAdmin(admin, accounts[1].ToMeta());
        if error.Some? {
          return;
        }
        participant := participant.(state := Rejected);
      case Rewrite(newParticipant) =>
        if |accounts| < 2 {
          return Some(NotEnoughAccountKeys);
        }
        error := AuthenticateAdmin(admin, accounts[1].ToMeta());
        if error.Some? {
          return;
        }
        participant := newParticipant;
    }
    if participant.testnetIdentity == participant.mainnetIdentity {
      return Some(InvalidAccountData);
    }
    PackIntoSlice(participant, info.data);
  }

  // ---------- Over any run of transactions ----------

  function ZeroKey(): Key {
    seq(KEY_LEN, i => 0)
  }

  const NEW_PARTICIPANT := Participant(ZeroKey(), ZeroKey(), Uninitialized)

  /** A new account's buffer reads as an uninitialized participant. */
  lemma ZeroedAccount(n: nat)
    requires n >= PARTICIPANT_LEN
    ensures UnpackParticipant(seq(n, i => 0 as byte)) == Ok(NEW_PARTICIPANT)
  {
    var zeros := seq(n, i => 0 as byte);
    assert zeros[..KEY_LEN] == ZeroKey();
    assert zeros[KEY_LEN..PARTICIPANT_LEN - 1] == ZeroKey();
  }

  /** The buffer holds a participant: a new one, or one with two different identities. */
  ghost predicate Good(data: seq<byte>) {
    var p := UnpackParticipant(data);
    p.Ok? && (p.value == NEW_PARTICIPANT || p.value.testnetIdentity != p.value.mainnetIdentity)
  }

  /** The buffer after a transaction reads as what the state machine decided. */
  lemma AfterReads(admin: Key, data: seq<byte>, tx: Transaction)
    requires UnpackParticipant(data).Ok?
    ensures var r := Decide(admin, data, tx);
            && |After(admin, data, tx)| == |data|
            && After(admin, data, tx)[PARTICIPANT_LEN..] == data[PARTICIPANT_LEN..]
            && UnpackParticipant(After(admin, data, tx)) == if r.Ok? then r else UnpackParticipant(data)
  {
    var r := Decide(admin, data, tx);
    if r.Ok? {
      ParticipantRoundTrip(r.value, data[PARTICIPANT_LEN..]);
    }
  }

  /** In every reachable state but the first the two identities differ; the rest of the buffer is never
      touched. */
  lemma {:induction false} IdentitiesDiffer(admin: Key, data: seq<byte>, txs: seq<Transaction>)
    requires Good(data)
    ensures Good(AfterAll(admin, data, txs))
    ensures |AfterAll(admin, data, txs)| == |data|
    ensures AfterAll(admin, data, txs)[PARTICIPANT_LEN..] == data[PARTICIPANT_LEN..]
    decreases |txs|
  {
    if txs != [] {
      AfterReads(admin, data, txs[0]);
      IdentitiesDiffer(admin, After(admin, data, txs[0]), txs[1..]);
    }
  }

  ghost predicate SignedByAdmin(admin: Key, tx: Transaction) {
    |tx.accounts| > 1 && tx.accounts[1] == AccountMeta(admin, true)
  }

  ghost predicate SignedBy(key: Key, tx: Transaction) {
    AccountMeta(key, true) in tx.accounts
  }

  /** Without the admin's signature, the only change is from uninitialized to pending, with two
      different identities that both have signed. */
  lemma WithoutAdmin(admin: Key, data: seq<byte>, tx: Transaction)
    requires UnpackParticipant(data).Ok? && !SignedByAdmin(admin, tx)
    ensures var p, q := UnpackParticipant(data).value, UnpackParticipant(After(admin, data, tx));
            && q.Ok?
            && (q.value == p
                || (p.state == Uninitialized && q.value.state == Pending
                    && q.value.testnetIdentity != q.value.mainnetIdentity
                    && SignedBy(q.value.testnetIdentity, tx) && SignedBy(q.value.mainnetIdentity, tx)))
  {
    AfterReads(admin, data, tx);
    if |tx.accounts| > 2 {
      assert tx.accounts[1..][0] == tx.accounts[1] && tx.accounts[1..][1] == tx.accounts[2];
    } else if |tx.accounts| > 1 {
      assert tx.accounts[1..][0] == tx.accounts[1];
    }
  }

  /** Once applied for, a participation stays as it is unless the admin signs. */
  lemma {:induction false} AppliedIsFrozen(admin: Key, data: seq<byte>, txs: seq<Transaction>)
    requires UnpackParticipant(data).Ok? && UnpackParticipant(data).value.state != Uninitialized
    requires forall tx :: tx in txs ==> !SignedByAdmin(admin, tx)
    ensures UnpackParticipant(AfterAll(admin, data, txs)) == UnpackParticipant(data)
    decreases |txs|
  {
    if txs != [] {
      WithoutAdmin(admin, data, txs[0]);
      AppliedIsFrozen(admin, After(admin, data, txs[0]), txs[1..]);
    }
  }

  /** No run gets a new participant beyond pending without the admin's signature. */
  lemma {:induction false} EnrolmentNeedsAdmin(admin: Key, data: seq<byte>, txs: seq<Transaction>)
    requires UnpackParticipant(data).Ok? && UnpackParticipant(data).value.state in {Uninitialized, Pending}
    requires forall tx :: tx in txs ==> !SignedByAdmin(admin, tx)
    ensures UnpackParticipant(AfterAll(admin, data, txs)).Ok?
    ensures UnpackParticipant(AfterAll(admin, data, txs)).value.state in {Uninitialized, Pending}
    decreases |txs|
  {
    if txs != [] {
      WithoutAdmin(admin, data, txs[0]);
      EnrolmentNeedsAdmin(admin, After(admin, data, txs[0]), txs[1..]);
    }
  }

  /** An application succeeds exactly when the account is uninitialized and two different identities
      sign it; it is then pending, with the first of them as its mainnet identity and the second as its
      testnet identity. */
  lemma ApplySucceeds(admin: Key, data: seq<byte>, tx: Transaction)
    requires UnpackInstruction(tx.input) == Ok(Apply)
    ensures Decide(admin, data, tx).Ok? <==>
              && |tx.accounts| > 2
              && UnpackParticipant(data).Ok? && UnpackParticipant(data).value.state == Uninitialized
              && tx.accounts[1].isSigner && tx.accounts[2].isSigner
              && tx.accounts[1].key != tx.accounts[2].key
    ensures Decide(admin, data, tx).Ok? ==>
              var p := Decide(admin, data, tx).value;
              && p.mainnetIdentity == tx.accounts[1].key && p.testnetIdentity == tx.accounts[2].key
              && p.state == Pending
  {
    if |tx.accounts| > 2 {
      assert tx.accounts[1..][0] == tx.accounts[1] && tx.accounts[1..][1] == tx.accounts[2];
    }
  }

  /** The account can be read and its two identities differ: all that the processor asks of an account
      besides the signatures, except for an application. */
  ghost predicate Usable(data: seq<byte>) {
    UnpackParticipant(data).Ok?
    && UnpackParticipant(data).value.testnetIdentity != UnpackParticipant(data).value.mainnetIdentity
  }

  /** An approval succeeds exactly with the admin's signature on a usable account, in whatever state. */
  lemma ApproveSucceeds(admin: Key, data: seq<byte>, tx: Transaction)
    requires UnpackInstruction(tx.input) == Ok(Approve)
    ensures Decide(admin, data, tx).Ok? <==> SignedByAdmin(admin, tx) && Usable(data)
    ensures Decide(admin, data, tx).Ok? ==>
              Decide(admin, data, tx).value == UnpackParticipant(data).value.(state := Approved)
  {
    if |tx.accounts| > 1 {
      assert tx.accounts[1..][0] == tx.accounts[1];
    }
  }

  lemma RejectSucceeds(admin: Key, data: seq<byte>, tx: Transaction)
    requires UnpackInstruction(tx.input) == Ok(Reject)
    ensures Decide(admin, data, tx).Ok? <==> SignedByAdmin(admin, tx) && Usable(data)
    ensures Decide(admin, data, tx).Ok? ==>
              Decide(admin, data, tx).value == UnpackParticipant(data).value.(state := Rejected)
  {
    if |tx.accounts| > 1 {
      assert tx.accounts[1..][0] == tx.accounts[1];
    }
  }

  /** The admin can rewrite an account in whatever state to any participant with two different identities. */
  lemma RewriteSucceeds(admin: Key, data: seq<byte>, tx: Transaction, q: Participant)
    requires UnpackInstruction(tx.input) == Ok(Rewrite(q))
    ensures Decide(admin, data, tx).Ok? <==>
              SignedByAdmin(admin, tx) && UnpackParticipant(data).Ok? && q.testnetIdentity != q.mainnetIdentity
    ensures Decide(admin, data, tx).Ok? ==>
              Decide(admin, data, tx).value == q && UnpackParticipant(After(admin, data, tx)) == Ok(q)
  {
    if |tx.accounts| > 1 {
      assert tx.accounts[1..][0] == tx.accounts[1];
    }
    if Decide(admin, data, tx).Ok? {
      AfterReads(admin, data, tx);
    }
  }

  /** Why an instruction for the admin alone is refused. */
  lemma AdminRefusals(admin: Key, data: seq<byte>, tx: Transaction)
    requires UnpackInstruction(tx.input).Ok? && UnpackParticipant(data).Ok?
    requires UnpackInstruction(tx.input).value in {Approve, Reject} || UnpackInstruction(tx.input).value.Rewrite?
    ensures var r := Decide(admin, data, tx);
            && (|tx.accounts| < 2 ==> r == Err(NotEnoughAccountKeys))
            && (|tx.accounts| > 1 && tx.accounts[1].key != admin ==> r == Err(InvalidArgument))
            && (|tx.accounts| > 1 && tx.accounts[1] == AccountMeta(admin, false) ==> r == Err(MissingRequiredSignature))
            && (SignedByAdmin(admin, tx) && r.Err? ==> r.error == InvalidAccountData)
  {
    if |tx.accounts| > 1 {
      assert tx.accounts[1..][0] == tx.accounts[1];
    }
  }

  /** Why an application or a withdrawal is refused. */
  lemma IdentityRefusals(admin: Key, data: seq<byte>, tx: Transaction)
    requires UnpackInstruction(tx.input).Ok? && UnpackParticipant(data).Ok? && tx.accounts != []
    requires UnpackInstruction(tx.input).value in {Apply, Withdraw}
    ensures var r, applies := Decide(admin, data, tx), UnpackInstruction(tx.input).value.Apply?;
            var again := applies && UnpackParticipant(data).value.state != Uninitialized;
            && (again ==> r == Err(AccountAlreadyInitialized))
            && (!again && |tx.accounts| < 3 ==> r == Err(NotEnoughAccountKeys))
            && (!again && |tx.accounts| > 2 && !tx.accounts[1].isSigner ==> r == Err(MissingRequiredSignature))
            && (!again && |tx.accounts| > 2 && r.Err? ==> r.error in {MissingRequiredSignature, InvalidAccountData})
            && (r == Err(InvalidAccountData) ==>
                  if applies then tx.accounts[1].key == tx.accounts[2].key
                  else UnpackParticipant(data).value.testnetIdentity == UnpackParticipant(data).value.mainnetIdentity)
  {
    if |tx.accounts| > 2 {
      assert tx.accounts[1..][0] == tx.accounts[1] && tx.accounts[1..][1] == tx.accounts[2];
    }
  }

  /** A withdrawal succeeds exactly with the signature of one of the identities of a usable account, in
      whatever state. */
  lemma WithdrawSucceeds(admin: Key, data: seq<byte>, tx: Transaction)
    requires UnpackInstruction(tx.input) == Ok(Withdraw)
    ensures Decide(admin, data, tx).Ok? <==>
              && |tx.accounts| > 2 && tx.accounts[1].isSigner && Usable(data)
              && tx.accounts[1].key in {UnpackParticipant(data).value.testnetIdentity,
                UnpackParticipant(data).value.mainnetIdentity}
    ensures Decide(admin, data, tx).Ok? ==> Decide(admin, data, tx) == UnpackParticipant(data)
  {
    if |tx.accounts| > 2 {
      assert tx.accounts[1..][0] == tx.accounts[1] && tx.accounts[1..][1] == tx.accounts[2];
    }
  }

  /** A rejected participant can be approved, and can withdraw: the state that the documentation asks
      for is not checked. */
  lemma StateIsNotChecked(admin: Key, p: Participant, account: AccountMeta, refundee: AccountMeta)
    requires p.state == Rejected && p.testnetIdentity != p.mainnetIdentity
    ensures Decide(admin, PackParticipant(p), Transaction([account, AccountMeta(admin, true)], [2]))
         == Ok(p.(state := Approved))
    ensures Decide(admin, PackParticipant(p),
              Transaction([account, AccountMeta(p.testnetIdentity, true), refundee], [1]))
         == Ok(p)
  {
    ParticipantRoundTrip(p, []);
    assert PackParticipant(p) + [] == PackParticipant(p);
    ApproveSucceeds(admin, PackParticipant(p), Transaction([account, AccountMeta(admin, true)], [2]));
    WithdrawSucceeds(admin, PackParticipant(p),
      Transaction([account, AccountMeta(p.testnetIdentity, true), refundee], [1]));
  }
}
