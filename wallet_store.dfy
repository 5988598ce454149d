/**
 * Persistence of wallets and the mnemonic seeds they were derived from.
 *
 * The database is two tables held in primary-key order, two ID sequences and
 * at most one open transaction, whose working copies become the tables on
 * commit. Failures the database may report (connection loss, timeouts,
 * constraints the model does not know) are supplied by the caller as `Faults`.
 * The one constraint the model enforces itself is the unique wallet address.
 */
module WalletStore {
  import opened Errors
  import opened Model

  /** The error each statement of the transaction would report, if any. */
  datatype Faults = Faults(
    begin: Option<Error>,
    seedInsert: Option<Error>,
    walletInsert: Option<Error>,
    commit: Option<Error>)

  predicate AddressTaken(ws: seq<Wallet>, address: string)
  {
    exists i :: 0 <= i < |ws| && ws[i].address == address
  }

  predicate OwnedOn(w: Wallet, userID: nat, chainID: nat)
  {
    w.userID == userID && w.chainID == chainID
  }

  /** Tables whose IDs ascend, stay below their sequence and whose wallet addresses are unique. */
  ghost predicate Consistent(ss: seq<MnemonicSeed>, ws: seq<Wallet>, nextSeed: nat, nextWallet: nat)
  {
    && (forall i, j :: 0 <= i < j < |ss| ==> ss[i].id < ss[j].id)
    && (forall i :: 0 <= i < |ss| ==> ss[i].id < nextSeed)
    && (forall i, j :: 0 <= i < j < |ws| ==> ws[i].id < ws[j].id)
    && (forall i :: 0 <= i < |ws| ==> ws[i].id < nextWallet)
    && (forall i, j :: 0 <= i < j < |ws| ==> ws[i].address != ws[j].address)
  }

  /** The error a wallet insert reports: the statement's own fault first, then the address constraint. */
  function InsertError(fault: Option<Error>, taken: bool, translate: bool): (r: Option<Error>)
    ensures fault.None? ==> (r.Some? <==> taken)
    ensures fault.None? && taken ==> (Is(r.value, DuplicatedKey) <==> translate)
  {
    if fault.Some? then fault
    else if taken then Some(if translate then Sentinel(DuplicatedKey) else UniqueViolation)
    else None
  }

  /**
   * The error `CreateWallet` returns for the given step failures, or `None` on
   * success, which happens exactly when no step fails and the address is free.
   */
  function CreateError(f: Faults, taken: bool, translate: bool): (r: Option<Error>)
    ensures r.None? <==> NoFaults(f) && !taken
  {
    if f.begin.Some? then Some(Wrap("failed to begin transaction", f.begin.value))
    else if f.seedInsert.Some? then Some(Wrap("failed to create mnemonic seed record", f.seedInsert.value))
    else match InsertError(f.walletInsert, taken, translate)
      case Some(e) =>
        if Is(e, DuplicatedKey) then Some(Wrap("wallet address already exists", e))
        else Some(Wrap("failed to create wallet record", e))
      case None =>
        if f.commit.Some? then Some(Wrap("failed to commit transaction", f.commit.value)) else None
  }

  predicate NoFaults(f: Faults)
  {
    f.begin.None? && f.seedInsert.None? && f.walletInsert.None? && f.commit.None?
  }

  /** With error translation on, a taken address gives the distinct "already exists" error. */
  lemma DuplicateTranslated(f: Faults)
    requires f.begin.None? && f.seedInsert.None? && f.walletInsert.None?
    ensures CreateError(f, true, true) == Some(Wrap("wallet address already exists", Sentinel(DuplicatedKey)))
    ensures Is(CreateError(f, true, true).value, DuplicatedKey)
  {
  }

  /**
   * Without error translation, the setting the backend's database opens with,
   * a taken address falls through to the generic "failed to create wallet record".
   */
  lemma DuplicateUntranslated(f: Faults)
    requires f.begin.None? && f.seedInsert.None? && f.walletInsert.None?
    ensures CreateError(f, true, false) == Some(Wrap("failed to create wallet record", UniqueViolation))
    ensures !Is(CreateError(f, true, false).value, DuplicatedKey)
  {
  }

  /** The first wallet, in primary-key order, owned by `userID` on `chainID`. */
  function WalletOf(ws: seq<Wallet>, userID: nat, chainID: nat): (r: Option<Wallet>)
    ensures r.None? <==> forall i :: 0 <= i < |ws| ==> !OwnedOn(ws[i], userID, chainID)
    ensures r.Some? ==> exists i ::
      && 0 <= i < |ws| && ws[i] == r.value && OwnedOn(ws[i], userID, chainID)
      && (forall j :: 0 <= j < i ==> !OwnedOn(ws[j], userID, chainID))
  {
    if |ws| == 0 then None
    else if OwnedOn(ws[0], userID, chainID) then Some(ws[0])
    else
      var r := WalletOf(ws[1..], userID, chainID);
      assert forall i :: 1 <= i < |ws| ==> ws[i] == ws[1..][i - 1];
      if r.Some? then
        ghost var k :| 0 <= k < |ws[1..]| && ws[1..][k] == r.value && OwnedOn(ws[1..][k], userID, chainID)
          && forall j :: 0 <= j < k ==> !OwnedOn(ws[1..][j], userID, chainID);
        assert ws[k + 1] == r.value;
        r
      else r
  }

  /** The wallet at `address`, if any. */
  function WalletAt(ws: seq<Wallet>, address: string): (r: Option<Wallet>)
    ensures r.None? <==> !AddressTaken(ws, address)
    ensures r.Some? ==> r.value in ws && r.value.address == address
  {
    if |ws| == 0 then None
    else if ws[0].address == address then Some(ws[0])
    else
      var r := WalletAt(ws[1..], address);
      assert forall i :: 1 <= i < |ws| ==> ws[i] == ws[1..][i - 1];
      r
  }

  /** Addresses being unique, the wallet found at an address is the one stored there. */
  lemma {:induction false} WalletAtUnique(ws: seq<Wallet>, i: nat)
    requires i < |ws|
    requires forall a, b :: 0 <= a < b < |ws| ==> ws[a].address != ws[b].address
    ensures WalletAt(ws, ws[i].address) == Some(ws[i])
  {
    if i > 0 {
      assert ws[0].address != ws[i].address;
      assert ws[1..][i - 1] == ws[i];
      WalletAtUnique(ws[1..], i - 1);
    }
  }

  class Store {
    // committed tables, in primary-key order
    var seeds: seq<MnemonicSeed>
    var wallets: seq<Wallet>
    // ID sequences; a rollback does not rewind them
    var nextSeedID: nat
    var nextWalletID: nat
    // the open transaction, if any
    var inTx: bool
    var txSeeds: seq<MnemonicSeed>
    var txWallets: seq<Wallet>
    // whether the driver reports a unique violation as the ORM's DuplicatedKey sentinel
    const translateErrors: bool

    ghost predicate Valid()
      reads this
    {
      && Consistent(seeds, wallets, nextSeedID, nextWalletID)
      && (inTx ==> Consistent(txSeeds, txWallets, nextSeedID, nextWalletID))
    }

    /** The store holds no open transaction. */
    ghost predicate Idle()
      reads this
    {
      Valid() && !inTx
    }

    constructor (translateErrors: bool)
      ensures Idle() && this.translateErrors == translateErrors
      ensures seeds == [] && wallets == []
    {
      seeds, wallets := [], [];
      nextSeedID, nextWalletID := 1, 1;
      inTx := false;
      txSeeds, txWallets := [], [];
      this.translateErrors := translateErrors;
    }

    method Begin(fault: Option<Error>) returns (err: Option<Error>)
      requires Idle()
      modifies this
      ensures Valid() && err == fault
      ensures seeds == old(seeds) && wallets == old(wallets)
      ensures nextSeedID == old(nextSeedID) && nextWalletID == old(nextWalletID)
      ensures fault.Some? ==> !inTx
      ensures fault.None? ==> inTx && txSeeds == seeds && txWallets == wallets
    {
      err := fault;
      if fault.None? {
        inTx, txSeeds, txWallets := true, seeds, wallets;
      }
    }

    /** Insert a seed into the open transaction; the database assigns its ID. */
    method InsertSeed(m: MnemonicSeed, fault: Option<Error>) returns (err: Option<Error>, saved: MnemonicSeed)
      requires Valid() && inTx
      modifies this
      ensures Valid() && inTx && err == fault
      ensures seeds == old(seeds) && wallets == old(wallets) && txWallets == old(txWallets)
      ensures nextWalletID == old(nextWalletID)
      ensures fault.Some? ==> txSeeds == old(txSeeds) && nextSeedID == old(nextSeedID)
      ensures fault.None? ==>
        saved == m.(id := old(nextSeedID)) && txSeeds == old(txSeeds) + [saved]
        && nextSeedID == old(nextSeedID) + 1
    {
      err, saved := fault, m;
      if fault.None? {
        saved := m.(id := nextSeedID);
        txSeeds := txSeeds + [saved];
        nextSeedID := nextSeedID + 1;
      }
    }

    /** Insert a wallet into the open transaction, enforcing the unique address. */
    method InsertWallet(w: Wallet, fault: Option<Error>) returns (err: Option<Error>, saved: Wallet)
      requires Valid() && inTx
      modifies this
      ensures Valid() && inTx
      ensures err == InsertError(fault, AddressTaken(old(txWallets), w.address), translateErrors)
      ensures seeds == old(seeds) && wallets == old(wallets) && txSeeds == old(txSeeds)
      ensures nextSeedID == old(nextSeedID)
      ensures err.Some? ==> txWallets == old(txWallets) && nextWalletID == old(nextWalletID)
      ensures err.None? ==>
        saved == w.(id := old(nextWalletID)) && txWallets == old(txWallets) + [saved]
        && nextWalletID == old(nextWalletID) + 1
    {
      err, saved := InsertError(fault, AddressTaken(txWallets, w.address), translateErrors), w;
      if err.None? {
        saved := w.(id := nextWalletID);
        txWallets := txWallets + [saved];
        nextWalletID := nextWalletID + 1;
      }
    }

    /** Discard the open transaction; the ID sequences keep what it consumed. */
    method Rollback()
      requires Valid() && inTx
      modifies this
      ensures Idle()
      ensures seeds == old(seeds) && wallets == old(wallets)
      ensures nextSeedID == old(nextSeedID) && nextWalletID == old(nextWalletID)
    {
      inTx := false;
    }

    /** Make the open transaction's tables the committed ones; a failed commit aborts it. */
    method Commit(fault: Option<Error>) returns (err: Option<Error>)
      requires Valid() && inTx
      modifies this
      ensures Idle() && err == fault
      ensures nextSeedID == old(nextSeedID) && nextWalletID == old(nextWalletID)
      ensures fault.None? ==> seeds == old(txSeeds) && wallets == old(txWallets)
      ensures fault.Some? ==> seeds == old(seeds) && wallets == old(wallets)
    {
      err := fault;
      if fault.None? {
        seeds, wallets := txSeeds, txWallets;
      }
      inTx := false;
    }

    /**
     * Persist a seed and the wallet derived from it atomically. On success both
     * rows are committed and the wallet's `mnemonicID` is the seed's new ID; on
     * any failure neither is.
     */
    method CreateWallet(wallet: Wallet, mnemonic: MnemonicSeed, faults: Faults)
      returns (err: Option<Error>, savedWallet: Wallet, savedSeed: MnemonicSeed)
      requires Idle()
      modifies this
      ensures Idle()
      ensures err == CreateError(faults, AddressTaken(old(wallets), wallet.address), translateErrors)
      ensures err.None? ==>
        && savedSeed == mnemonic.(id := old(nextSeedID))
        && savedWallet == wallet.(id := old(nextWalletID), mnemonicID := savedSeed.id)
        && seeds == old(seeds) + [savedSeed]
        && wallets == old(wallets) + [savedWallet]
      ensures err.Some? ==> seeds == old(seeds) && wallets == old(wallets)
    {
      savedWallet, savedSeed := wallet, mnemonic;
      var e := Begin(faults.begin);
      if e.Some? {
        err := Some(Wrap("failed to begin transaction", e.value));
        return;
      }
      e, savedSeed := InsertSeed(mnemonic, faults.seedInsert);
      if e.Some? {
        Rollback();
        err := Some(Wrap("failed to create mnemonic seed record", e.value));
        return;
      }
      var linked := wallet.(mnemonicID := savedSeed.id);
      e, savedWallet := InsertWallet(linked, faults.walletInsert);
      if e.Some? {
        Rollback();
        if Is(e.value, DuplicatedKey) {
          err := Some(Wrap("wallet address already exists", e.value));
        } else {
          err := Some(Wrap("failed to create wallet record", e.value));
        }
        return;
      }
      e := Commit(faults.commit);
      if e.Some? {
        err := Some(Wrap("failed to commit transaction", e.value));
        return;
      }
      err := None;
    }

    /** The caller's wallet on a chain; no match is `Ok(None)`, not an error. */
    method GetWalletByUserID(userID: nat, chainID: nat, fault: Option<Error>) returns (r: Result<Option<Wallet>>)
      ensures fault.None? ==> r == Ok(WalletOf(wallets, userID, chainID))
      ensures fault.None? && (forall i :: 0 <= i < |wallets| ==> !OwnedOn(wallets[i], userID, chainID)) ==>
        r == Ok(None)
      ensures fault.Some? && Is(fault.value, RecordNotFound) ==> r == Ok(None)
      ensures fault.Some? && !Is(fault.value, RecordNotFound) ==>
        r == Err(Wrap("failed to query wallet by user ID and chain ID", fault.value))
    {
      var found := WalletOf(wallets, userID, chainID);
      var e: Option<Error> :=
        if fault.Some? then fault
        else if found.None? then Some(Sentinel(RecordNotFound))
        else None;
      if e.Some? {
        if Is(e.value, RecordNotFound) {
          r := Ok(None);
        } else {
          r := Err(Wrap("failed to query wallet by user ID and chain ID", e.value));
        }
      } else {
        r := Ok(found);
      }
    }

    /** The encrypted key stored at an address; an unknown address gives `Ok("")`. */
    method FindEncryptedKeyByAddress(address: string, fault: Option<Error>) returns (r: Result<string>)
      requires Valid()
      ensures fault.None? && !AddressTaken(wallets, address) ==> r == Ok("")
      ensures fault.None? ==> forall i :: 0 <= i < |wallets| && wallets[i].address == address ==>
        r == Ok(wallets[i].encryptedKey)
      ensures fault.Some? && Is(fault.value, RecordNotFound) ==> r == Ok("")
      ensures fault.Some? && !Is(fault.value, RecordNotFound) ==>
        r == Err(Wrap("failed to query encrypted key by address", fault.value))
    {
      var found := WalletAt(wallets, address);
      forall i | 0 <= i < |wallets| && wallets[i].address == address
        ensures found == Some(wallets[i])
      {
        WalletAtUnique(wallets, i);
      }
      var e: Option<Error> :=
        if fault.Some? then fault
        else if found.None? then Some(Sentinel(RecordNotFound))
        else None;
      if e.Some? {
        if Is(e.value, RecordNotFound) {
          r := Ok("");
        } else {
          r := Err(Wrap("failed to query encrypted key by address", e.value));
        }
      } else {
        r := Ok(found.value.encryptedKey);
      }
    }
  }
}
