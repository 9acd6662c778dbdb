/** The vocabulary of the account-state ledger: the index under which an object is
    stored and the objects the model needs.

    A ledger index is a hash of the fields that identify an object.  `Key` keeps those
    fields instead of the hash, so two indexes are equal exactly when they name the same
    object; this is the absence of hash collisions on which the server relies. */
module Entries {

  datatype Option<+T> = None | Some(value: T) {
    function GetOr(default: T): T {
      if Some? then value else default
    }
  }

  /** 160-bit account and currency identifiers; accounts are ordered. */
  type Account = nat
  type Currency = nat

  /** The root of a paged directory.  `BookDir(n)` is an order-book directory whose root
      index is the number n: base of the book in the high bits, quality in the low 64. */
  datatype Root = OwnerDir(owner: Account) | BookDir(number: nat)

  /** `PageKey(root, 0)` is the root itself, as in getDirNodeIndex. */
  datatype Key =
    | AccountKey(account: Account)
    | PageKey(root: Root, page: nat)
    | LineKey(low: Account, high: Account, currency: Currency)
    | OtherKey(number: nat)

  /** What one party of a trust line stores on the line. */
  datatype Side = Side(
    limit: int,
    qualityIn: nat,
    qualityOut: nat,
    reserve: bool,
    auth: bool,
    noSkywell: bool,
    freeze: bool,
    node: Option<nat>)

  datatype Entry =
    | AccountRoot(ownerCount: nat, flags: bv32)
    | DirNode(indexes: seq<Key>, next: nat, previous: nat)
    | TrustLine(balance: int, low: Side, high: Side)
    | Other(data: nat)

  /** The state seen through a ledger or an overlay. */
  type State = map<Key, Entry>

  /** Result codes of the modelled operations. */
  datatype Ter = tesSUCCESS | tecDIR_FULL | tefBAD_LEDGER | tefINTERNAL
}
