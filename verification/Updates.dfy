/** The custody state and the alphabet of updates that drive it. */
module Updates {
  import opened Domain
  import opened Accounts
  import T = Transactions
  import W = Withdrawals
  import L = Limits
  import X = Exchanges

  datatype Network = Mainnet | Testnet | Regtest

  datatype BtcState = BtcState(height: nat, blockHash: string)

  datatype InviteRec = InviteRec(invite: Uuid, invitor: string, inviteLabel: string)

  datatype State = State(
    users: map<UserId, UserInfo>,
    lastChanged: Time,
    btcState: BtcState,
    invites: map<Uuid, InviteRec>,
    exchangeState: X.ExchangeState
  )

  /** Hashes of the genesis blocks of the three Bitcoin networks. */
  function GenesisHash(network: Network): string {
    match network
    case Mainnet => "000000000019d6689c085ae165831e934ff763ae46a2a6c172b3f1b60a8ce26f"
    case Testnet => "000000000933ea01ad0ee984209779baaec3ced90fa3f408719526f8d77f4943"
    case Regtest => "0f9188f13cb7b2c71f2a335e3a4fc328bf5beb436012afca590b1a11466e2206"
  }

  function NewState(network: Network, now: Time): State {
    State(map[], now, BtcState(0, GenesisHash(network)), map[], X.NewExchangeState())
  }

  datatype TokenAction = Enable | Disable

  datatype TokenUpdate = TokenUpdate(user: UserId, token: Erc20Token, action: TokenAction)

  /** Each field is absent, or carries the new value, which may itself be a reset to nothing. */
  datatype ConfigUpdateData = ConfigUpdateData(
    user: UserId, email: Option<Option<string>>, phone: Option<Option<string>>, tgName: Option<Option<string>>)

  datatype UpdateBody =
    | Signup(signup: SignupInfo)
    | Snapshot(snapshot: State)
    | CreateWithdrawalRequest(withdrawal: W.WithdrawalRequestInfo)
    | WithdrawalRequestDecision(vote: W.WithdrawalRequestDecisionInfo)
    | WithdrawalRequestComplete(complete: W.WithdrawCompleteInfo)
    | WithdrawalRequestNodeRejected(reject: W.WithdrawalRejectInfo)
    | DepositAddress(user: UserId, address: CurrencyAddress)
    | BestBtcBlock(block: BtcState)
    | UpdateBtcTx(tx: T.BtcTransaction)
    | CancelBtcTx(cancel: T.TxCancel)
    | UpdateTokens(tokens: TokenUpdate)
    | GenInvite(invite: InviteRec)
    | LimitsChangeRequest(limit: L.LimitChangeUpd)
    | CancelLimitChange(cancelLimit: L.LimitCancelData)
    | LimitChangeDecision(limitVote: L.LimitChangeDecision)
    | ClearLimits(span: L.LimitSpan)
    | SetLanguage(user: UserId, language: string)
    | ConfigUpdate(config: ConfigUpdateData)
    | PasswordChange(user: UserId, newPassword: string)
    | SetPublicKey(user: UserId, publicKey: Option<PublicKey>)
    | ExchangeRequest(order: X.ExchangeOrderUpd)
    | ExchangeDecision(decision: X.ExchangeDecision)
    | ExchangeAddress(exchangeAddress: CurrencyAddress)

  datatype StateUpdate = StateUpdate(created: Time, body: UpdateBody)

  /** What an accepted update asks the node workers to do. */
  datatype UpdateResult = WithdrawConfirmed(id: Uuid) | WithdrawalUnderlimit(request: W.WithdrawalRequest)
}
