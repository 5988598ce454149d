/**
 * The persisted records of the wallet backend. Go's `uint` identifiers are
 * natural numbers here; timestamps and the soft-delete column are not modelled.
 */
module Model {

  /** A registered account: identity, unique handle, password verifier. */
  datatype User = User(id: nat, username: string, passwordHash: string)

  /** The encrypted seed phrase an HD wallet was derived from. */
  datatype MnemonicSeed = MnemonicSeed(id: nat, userID: nat, encryptedMnemonic: string)

  /**
   * A wallet on one chain. `chainID` and `mnemonicID` are the columns the store
   * and the controllers use; `address` is unique across all wallets.
   */
  datatype Wallet = Wallet(
    id: nat,
    userID: nat,
    chainID: nat,
    mnemonicID: nat,
    address: string,
    encryptedKey: string,
    derivationPath: string,
    name: string)
}
