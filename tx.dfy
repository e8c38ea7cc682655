/**
 * The rest of one run of `main`: the account query, the execute-contract
 * message, the transaction body, the signer info and fee, and the sign
 * document that is signed and broadcast. Key derivation, signing and the
 * network are outside the model: the signer's address and public key, the
 * account query's response and the configuration are parameters, and the
 * run records the requests it makes.
 */
module Transaction {
  import opened Wrappers
  import opened Fiat
  import opened Yadio
  import opened PriceUpdate
  import opened Decimal

  /** The REST path of the account query, appended to the LCD base URL as is. */
  const AccountsPath: string := "cosmos/auth/v1beta1/accounts/"

  /** The fee: 15000 uatom for a gas limit of 500000. */
  const FeeAmount: nat := 15000
  const FeeDenom: string := "uatom"
  const GasLimit: nat := 500000

  /** The account query URL: base, path and address concatenated with no separator added. */
  function AccountUrl(lcd: string, address: string): (url: string)
    ensures |url| == |lcd| + |AccountsPath| + |address|
    ensures url[..|lcd|] == lcd
    ensures url[|lcd|..|lcd| + |AccountsPath|] == AccountsPath
    ensures url[|lcd| + |AccountsPath|..] == address
  {
    lcd + AccountsPath + address
  }

  /** The address an account URL asks for, if the URL has the expected prefix. */
  function AddressOfUrl(lcd: string, url: string): (r: Option<string>)
    ensures r.Some? ==> AccountUrl(lcd, r.value) == url
  {
    var prefix := lcd + AccountsPath;
    if |prefix| <= |url| && url[..|prefix|] == prefix then
      assert url == prefix + url[|prefix|..];
      Some(url[|prefix|..])
    else None
  }

  lemma AddressOfAccountUrl(lcd: string, address: string)
    ensures AddressOfUrl(lcd, AccountUrl(lcd, address)) == Some(address)
  {
  }

  /**
   * No separator is inserted: whatever the base ends with, it is followed
   * directly by the `c` of `cosmos/…`.
   */
  lemma NoSeparatorInserted(lcd: string, address: string)
    ensures AccountUrl(lcd, address)[|lcd|] == 'c'
  {
    var url := AccountUrl(lcd, address);
    assert url[|lcd|] == url[|lcd|..|lcd| + |AccountsPath|][0];
  }

  datatype Coin = Coin(amount: nat, denom: string)

  datatype Fee = Fee(amount: seq<Coin>, gasLimit: nat)

  /** `MsgExecuteContract`; the JSON bytes of `msg` are modelled by the message itself. */
  datatype MsgExecuteContract = MsgExecuteContract(sender: string, contract: string, msg: ExecuteMsg, funds: seq<Coin>)

  /** The body's messages, with the builder's defaults: an empty memo and timeout height 0. */
  datatype TxBody = TxBody(messages: seq<MsgExecuteContract>, memo: string, timeoutHeight: nat)

  /** `SignerInfo::single_direct`: one signer's public key and account sequence. */
  datatype SignerInfo = SignerInfo(publicKey: string, sequence: nat)

  datatype AuthInfo = AuthInfo(signerInfo: SignerInfo, fee: Fee)

  /** The document that is signed: body, auth info, chain id and account number. */
  datatype SignDoc = SignDoc(body: TxBody, authInfo: AuthInfo, chainId: string, accountNumber: nat)

  /** The transaction body under construction; messages are appended in order. */
  class BodyBuilder {
    var messages: seq<MsgExecuteContract>

    constructor ()
      ensures messages == []
    {
      messages := [];
    }

    method Msg(m: MsgExecuteContract)
      modifies this
      ensures messages == old(messages) + [m]
    {
      messages := messages + [m];
    }

    function Finish(): (body: TxBody)
      reads this
      ensures body.messages == messages
      ensures body.memo == "" && body.timeoutHeight == 0
    {
      TxBody(messages, "", 0)
    }
  }

  /** The configuration values the run reads (LCD and RPC URLs, contract address, chain id). */
  datatype Config = Config(lcd: string, priceAddr: string, chainId: string, rpc: string)

  /** What key derivation yields: the signer's address and public key. */
  datatype Signer = Signer(address: string, publicKey: string)

  /** The fields of the account query's response that are read. */
  datatype AccountResponse = AccountResponse(sequence: string, accountNumber: string)

  /** The account query failed in transport or its body did not decode. */
  datatype QueryError = QueryError

  /** A request the run sends to the ledger. */
  datatype Effect =
    | QueryAccount(url: string)
    | BroadcastCommit(rpc: string, doc: SignDoc)

  /** Where an `unwrap` on the modelled path panics. */
  datatype PanicSite = AccountQuery | SequenceParse | AccountNumberParse

  datatype Exit =
    | Exited(code: int)         // std::process::exit
    | Panicked(site: PanicSite)
    | Returned                  // main ran to its end

  /** The requests a run made, in order, and how it ended. */
  datatype Run = Run(effects: seq<Effect>, exit: Exit)

  /** The body `main` builds: exactly one execute message, from the signer to the price contract, with no funds. */
  function PriceBody(signer: Signer, config: Config, msg: ExecuteMsg): TxBody
  {
    TxBody([MsgExecuteContract(signer.address, config.priceAddr, msg, [])], "", 0)
  }

  /** The auth info `main` builds: the signer's key and sequence, and the fixed fee. */
  function PriceAuthInfo(signer: Signer, sequence: nat): AuthInfo
  {
    AuthInfo(SignerInfo(signer.publicKey, sequence), Fee([Coin(FeeAmount, FeeDenom)], GasLimit))
  }

  /**
   * One run of `main`. `fetched` is the outcome of the price-feed request,
   * `account` the outcome of the account query the run sends.
   */
  method RunUpdater(
    fetched: Result<Prices, Error>, config: Config, signer: Signer,
    account: Result<AccountResponse, QueryError>)
    returns (run: Run)
    ensures Survivors(fetched) == [] ==> run == Run([], Exited(1))
    ensures run.exit == Exited(1) <==> PricePipeline(fetched) == Abort(1)
    ensures Survivors(fetched) != [] ==>
              run.effects != [] && run.effects[0] == QueryAccount(AccountUrl(config.lcd, signer.address))
    ensures Survivors(fetched) != [] && account.Failure? ==>
              run.exit == Panicked(AccountQuery) && |run.effects| == 1
    ensures Survivors(fetched) != [] && account.Success? &&
            ParseAccountField(account.value.sequence).None? ==>
              run.exit == Panicked(SequenceParse) && |run.effects| == 1
    ensures Survivors(fetched) != [] && account.Success? &&
            ParseAccountField(account.value.sequence).Some? &&
            ParseAccountField(account.value.accountNumber).None? ==>
              run.exit == Panicked(AccountNumberParse) && |run.effects| == 1
    ensures run.exit == Returned <==>
              && Survivors(fetched) != [] && account.Success?
              && ParseAccountField(account.value.sequence).Some?
              && ParseAccountField(account.value.accountNumber).Some?
    ensures run.exit == Returned ==>
              && PricePipeline(fetched).Proceed?
              && run.effects == [
                   QueryAccount(AccountUrl(config.lcd, signer.address)),
                   BroadcastCommit(config.rpc, SignDoc(
                     PriceBody(signer, config, PricePipeline(fetched).msg),
                     PriceAuthInfo(signer, ParseAccountField(account.value.sequence).value),
                     config.chainId,
                     ParseAccountField(account.value.accountNumber).value))]
  {
    var price := PricesOrDefault(fetched);
    var allPrices := AllPrices(price);
    var validPrices := ValidPrices(allPrices);
    if validPrices == [] {
      return Run([], Exited(1));
    }

    var accountUrl := AccountUrl(config.lcd, signer.address);
    var effects := [QueryAccount(accountUrl)];
    if account.Failure? {
      return Run(effects, Panicked(AccountQuery));
    }
    var accountData := account.value;

    var txBodyBuilder := new BodyBuilder();
    var currencyPrices := ConvertPrices(validPrices);
    var updatePricesMsg := UpdatePrices(currencyPrices);
    var executeMsg := MsgExecuteContract(signer.address, config.priceAddr, updatePricesMsg, []);
    txBodyBuilder.Msg(executeMsg);

    var sequence := ParseAccountField(accountData.sequence);
    if sequence.None? {
      return Run(effects, Panicked(SequenceParse));
    }
    var signerInfo := SignerInfo(signer.publicKey, sequence.value);
    var gasAmount := Coin(FeeAmount, FeeDenom);
    var authInfo := AuthInfo(signerInfo, Fee([gasAmount], GasLimit));
    var txBody := txBodyBuilder.Finish();
    var accountNumber := ParseAccountField(accountData.accountNumber);
    if accountNumber.None? {
      return Run(effects, Panicked(AccountNumberParse));
    }
    var signDoc := SignDoc(txBody, authInfo, config.chainId, accountNumber.value);
    assert txBody == PriceBody(signer, config, PricePipeline(fetched).msg) by {
      assert txBodyBuilder.messages == [executeMsg];
    }
    effects := effects + [BroadcastCommit(config.rpc, signDoc)];
    run := Run(effects, Returned);
  }

  /**
   * The broadcast transaction of a run that returned: one message, to the
   * price contract from the signer, no funds, the fixed fee, and prices
   * for exactly the currencies with a positive rate, in declaration order.
   */
  lemma BroadcastShape(fetched: Result<Prices, Error>, signer: Signer, config: Config, sequence: nat)
    requires PricePipeline(fetched).Proceed?
    ensures var body := PriceBody(signer, config, PricePipeline(fetched).msg);
            && |body.messages| == 1
            && body.messages[0].sender == signer.address
            && body.messages[0].contract == config.priceAddr
            && body.messages[0].funds == []
            && body.memo == "" && body.timeoutHeight == 0
            && body.messages[0].msg.prices != []
            && (forall i :: 0 <= i < |body.messages[0].msg.prices| ==>
                  PricesOrDefault(fetched).Rate(body.messages[0].msg.prices[i].currency) > 0.0)
            && (forall i, k :: 0 <= i < k < |body.messages[0].msg.prices| ==>
                  Index(body.messages[0].msg.prices[i].currency) < Index(body.messages[0].msg.prices[k].currency))
            && forall c :: PricesOrDefault(fetched).Rate(c) > 0.0 <==>
                 exists i :: 0 <= i < |body.messages[0].msg.prices| && body.messages[0].msg.prices[i].currency == c
    ensures PriceAuthInfo(signer, sequence).signerInfo == SignerInfo(signer.publicKey, sequence)
    ensures PriceAuthInfo(signer, sequence).fee.amount == [Coin(15000, "uatom")]
    ensures PriceAuthInfo(signer, sequence).fee.gasLimit == 500000
  {
    AbortIffNoPositiveRate(fetched);
    PostedPrices(fetched);
    forall c ensures PricesOrDefault(fetched).Rate(c) > 0.0 <==>
                     exists i :: 0 <= i < |PricePipeline(fetched).msg.prices| &&
                               PricePipeline(fetched).msg.prices[i].currency == c {
      PostedCurrencies(fetched, c);
    }
  }

  /** Sequence "7" in the account response gives a signer info with sequence 7. */
  lemma SequenceSevenExample(signer: Signer)
    ensures ParseAccountField("7").Some?
    ensures PriceAuthInfo(signer, ParseAccountField("7").value).signerInfo.sequence == 7
  {
  }
}
