/**
 Basic vocabulary of the custody: currencies, addresses, identifiers, signatures,
 and the two failure-compatible wrappers the ledger uses.

 Identifiers that the ledger only compares (UUIDs, public keys, signatures) are
 numbers here; user names, Bitcoin transaction ids and addresses are strings.
 */
module Domain {

  datatype Option<+T> = None | Some(value: T)
  {
    function GetOr(default: T): T {
      match this
      case Some(v) => v
      case None => default
    }
  }

  /** A value or an error; usable with `:-`. */
  datatype Result<+T, +E> = Ok(value: T) | Err(error: E)
  {
    predicate IsFailure() {
      Err?
    }

    function PropagateFailure<U>(): Result<U, E>
      requires Err?
    {
      Err(error)
    }

    function Extract(): T
      requires Ok?
    {
      value
    }
  }

  type UserId = string
  type Uuid = nat
  type PublicKey = nat
  type Signature = nat
  type Txid = string
  type Time = int

  datatype Erc20Token = Erc20Token(ticker: string, name: string, contract: string)

  datatype Currency = BTC | ETH | ERC20(token: Erc20Token)

  const USDT := ERC20(Erc20Token("USDT", "USDT", "0xdAC17F958D2ee523a2206206994597C13D831ec7"))
  const CRV := ERC20(Erc20Token("CRV", "CRV", "0xd533a949740bb3306d119cc777fa900ba034cd52"))
  const GTECH := ERC20(Erc20Token("GTECH", "GTECH", "0x866A4Da32007BA71aA6CcE9FD85454fCF48B140c"))

  /** Every currency the exchange wallet starts with. */
  const SUPPORTED: set<Currency> := {BTC, ETH, USDT, CRV, GTECH}

  /** The currencies a new user starts with: all supported ones except CRV. */
  const DEFAULT_CURRENCIES: set<Currency> := {BTC, ETH, USDT, GTECH}

  datatype CurrencyAddress =
    | BtcAddress(addr: string)
    | EthAddress(account: string)
    | Erc20Address(token: Erc20Token, account: string)
  {
    function Currency(): Currency {
      match this
      case BtcAddress(_) => BTC
      case EthAddress(_) => ETH
      case Erc20Address(token, _) => ERC20(token)
    }

    function Text(): string {
      match this
      case BtcAddress(addr) => addr
      case EthAddress(account) => account
      case Erc20Address(_, account) => account
    }
  }

  datatype CurrencyTxId = BtcTxId(txid: Txid) | EthTxId(txid: Txid)
  {
    function Currency(): Currency {
      match this
      case BtcTxId(_) => BTC
      case EthTxId(_) => ETH
    }
  }

  datatype SignatureData = SignatureData(signature: Signature, nonce: u64, publicKey: PublicKey)

  datatype DecisionType = Confirm | Reject

  /** Why the ledger refuses an update. */
  datatype StateUpdateErr =
    | UserAlreadyExists(user: UserId)
    | UserNotFound(user: UserId)
    | UserMissingCurrency(user: UserId, currency: Currency)
    | DepositAddressAlreadyAllocated(user: UserId, address: CurrencyAddress)
    | WithdrawalRequestNotFound(user: UserId, id: Uuid)
    | WithdrawalRequestConfirmationDuplicate(id: Uuid, key: PublicKey)
    | WithdrawalRequestRejectionDuplicate(id: Uuid, key: PublicKey)
    | WithdrawalRequestAlreadyConfirmed(id: Uuid)
    | WithdrawalRequestAlreadyRejected(id: Uuid)
    | TokenAlreadyEnabled(token: Erc20Token)
    | TokenAlreadyDisabled(token: Erc20Token)
    | TokenNonZeroBalance(token: Erc20Token)
    | InviteAlreadyExist
    | InviteNotFound
    | LimitChangeNotFound
    | LimitAlreadyConfirmed
    | LimitAlreadyRejected
    | LimitOverflow
    | InsufficientFunds(user: UserId, currency: Currency)
    | UserMissingExchange(user: UserId, currency: Currency)
    | ExchangeAlreadyConfirmed
    | ExchangeAlreadyRejected

  // ---------- Machine integers ----------

  const TWO_TO_THE_63: int := 0x8000_0000_0000_0000
  const TWO_TO_THE_64: int := 0x1_0000_0000_0000_0000

  type u64 = n: int | 0 <= n < TWO_TO_THE_64

  type i64 = n: int | -TWO_TO_THE_63 <= n < TWO_TO_THE_63

  /** `x as u64`, and the wrap-around of unsigned 64-bit sums. */
  function AsU64(x: int): (r: u64)
    ensures -TWO_TO_THE_64 < x < TWO_TO_THE_64 ==> r == if x < 0 then x + TWO_TO_THE_64 else x
  {
    x % TWO_TO_THE_64
  }

  /** `x as i64`, and the wrap-around of signed 64-bit sums. */
  function AsI64(x: int): (r: i64)
    ensures -TWO_TO_THE_63 <= x < TWO_TO_THE_63 ==> r == x
  {
    var m := x % TWO_TO_THE_64;
    if m < TWO_TO_THE_63 then m else m - TWO_TO_THE_64
  }

  /** Both wrap-arounds only ever add a multiple of 2^64. */
  lemma WrapIsShift(x: int) returns (k: int, l: int)
    ensures AsI64(x) == x + k * TWO_TO_THE_64
    ensures AsU64(x) == x + l * TWO_TO_THE_64
  {
    l := -(x / TWO_TO_THE_64);
    k := if x % TWO_TO_THE_64 < TWO_TO_THE_63 then l else l - 1;
  }

  /** Shifting by a multiple of 2^64 is invisible after wrapping. */
  lemma ShiftIsInvisible(x: int, k: int)
    ensures AsI64(x + k * TWO_TO_THE_64) == AsI64(x)
    ensures AsU64(x + k * TWO_TO_THE_64) == AsU64(x)
  {
    var q, r := x / TWO_TO_THE_64, x % TWO_TO_THE_64;
    var y := x + k * TWO_TO_THE_64;
    assert y == (q + k) * TWO_TO_THE_64 + r;
    UniqueRemainder(y, q + k, r);
  }

  /** Two numbers wrap to the same value exactly when they differ by a multiple of 2^64. */
  lemma WrapEqualIff(x: int, y: int)
    ensures AsI64(x) == AsI64(y) <==> (x - y) % TWO_TO_THE_64 == 0
  {
    var k, _ := WrapIsShift(x);
    var l, _ := WrapIsShift(y);
    if AsI64(x) == AsI64(y) {
      UniqueRemainder(x - y, l - k, 0);
    }
    if (x - y) % TWO_TO_THE_64 == 0 {
      ShiftIsInvisible(y, (x - y) / TWO_TO_THE_64);
    }
  }

  lemma UniqueRemainder(y: int, q: int, r: int)
    requires y == q * TWO_TO_THE_64 + r && 0 <= r < TWO_TO_THE_64
    ensures y % TWO_TO_THE_64 == r
  {
  }

  /** Intermediate wrap-arounds of a sum do not change its final wrap-around. */
  lemma AddWrapped(x: int, y: int)
    ensures AsI64(AsI64(x) + y) == AsI64(x + y)
  {
    var k, _ := WrapIsShift(x);
    assert AsI64(x) + y == (x + y) + k * TWO_TO_THE_64;
    ShiftIsInvisible(x + y, k);
  }

  lemma AddWrappedU64(x: int, y: int)
    ensures AsI64(AsU64(x) + y) == AsI64(x + y)
    ensures AsU64(AsU64(x) + y) == AsU64(x + y)
  {
    var _, l := WrapIsShift(x);
    assert AsU64(x) + y == (x + y) + l * TWO_TO_THE_64;
    ShiftIsInvisible(x + y, l);
  }

  lemma SubtractWrapped(x: int, y: int)
    ensures AsI64(x - AsI64(y)) == AsI64(x - y)
  {
    var k, _ := WrapIsShift(y);
    assert x - AsI64(y) == (x - y) + (-k) * TWO_TO_THE_64;
    ShiftIsInvisible(x - y, -k);
  }

  lemma AddBothWrapped(x: int, y: int)
    ensures AsI64(AsI64(x) + AsI64(y)) == AsI64(x + y)
  {
    AddWrapped(x, AsI64(y));
    AddWrapped(y, x);
  }

  /** One step of a wrapping unsigned sum: what was added so far, the next term, and what is still to come. */
  lemma SumStepWraps(total: int, term: int, rest: int)
    ensures AsU64(AsU64(total + term) + rest) == AsU64(total + (term + rest))
  {
    AddWrappedU64(total + term, rest);
  }
}
