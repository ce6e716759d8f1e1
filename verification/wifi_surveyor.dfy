/**
 * The WiFi surveyor's decision logic: whether the active network is one to synchronize over, the
 * connectivity-change transition that switches automatic synchronization on and off, the guards
 * of an immediate sync request, the one-account rule and account deletion.
 *
 * What the connectivity manager, the content resolver and the account manager report is passed
 * in as plain values; what the surveyor asks of them comes back as effect values.
 */
module Surveyor {
  import opened Outcomes

  // ---------------------------------------------------------------------------------------------
  // The syncable-network predicate

  /** What NetworkCapabilities reports about the active network. */
  datatype Capabilities = Capabilities(notMetered: bool)

  /** What the active NetworkInfo reports: connected or not, WiFi or not. */
  datatype NetworkInfo = NetworkInfo(connected: bool, isWifi: bool)

  /**
   * The connectivity manager's answers at one moment. On API level M and later the surveyor asks
   * for the active network's capabilities (which may be missing) and its info; before M only for
   * the info. A missing active network info is None.
   */
  datatype Connectivity = Connectivity(atLeastM: bool, capabilities: Option<Capabilities>, activeInfo: Option<NetworkInfo>)

  /** The active network is connected. */
  predicate Connected(net: Connectivity) {
    net.activeInfo.Some? && net.activeInfo.value.connected
  }

  /**
   * isConnected: the active network is connected and is unmetered (from M on) or WiFi (before M),
   * unless synchronization over metered networks is allowed. Missing capabilities mean no.
   */
  function IsConnected(net: Connectivity, syncOnUnMeteredNetworkOnly: bool): (r: bool)
    ensures r ==> Connected(net)
    ensures net.atLeastM && net.capabilities.None? ==> !r
    ensures !syncOnUnMeteredNetworkOnly && (!net.atLeastM || net.capabilities.Some?) ==> (r <==> Connected(net))
    ensures net.atLeastM && net.capabilities.Some? && syncOnUnMeteredNetworkOnly ==>
      (r <==> Connected(net) && net.capabilities.value.notMetered)
    ensures !net.atLeastM && syncOnUnMeteredNetworkOnly ==> (r <==> Connected(net) && net.activeInfo.value.isWifi)
  {
    if net.atLeastM then
      match net.capabilities
      case None => false
      case Some(caps) =>
        var isConnected := net.activeInfo.Some? && net.activeInfo.value.connected;
        isConnected && (caps.notMetered || !syncOnUnMeteredNetworkOnly)
    else
      var isWifi := net.activeInfo.Some? && net.activeInfo.value.isWifi;
      var isConnected := net.activeInfo.Some? && net.activeInfo.value.connected;
      isConnected && (isWifi || !syncOnUnMeteredNetworkOnly)
  }

  /** Allowing metered networks never turns a syncable network into an unsyncable one. */
  lemma RelaxingTheFlagOnlyAddsNetworks(net: Connectivity)
    ensures IsConnected(net, true) ==> IsConnected(net, false)
  {
  }

  /** The scenarios the surveyor's unit tests check, before API level M with the default flag. */
  lemma TestScenarios()
    ensures !IsConnected(Connectivity(false, None, None), DefaultSyncOnUnMeteredNetworkOnly)
    ensures IsConnected(Connectivity(false, None, Some(NetworkInfo(true, true))), DefaultSyncOnUnMeteredNetworkOnly)
    ensures !IsConnected(Connectivity(false, None, None), false)
    ensures IsConnected(Connectivity(false, None, Some(NetworkInfo(true, false))), false)
    ensures !IsConnected(Connectivity(false, None, Some(NetworkInfo(true, false))), DefaultSyncOnUnMeteredNetworkOnly)
  {
  }

  // ---------------------------------------------------------------------------------------------
  // Surveyor state

  /** The sync account the surveyor was started with. */
  datatype Account = Account(name: string, accountType: string)

  /**
   * The surveyor's fields: the current sync account (absent before startSurveillance and after
   * deleteAccount), whether automatic synchronization is active, the metered-network flag, and
   * whether the weakly held context is still available.
   */
  datatype SurveyorState = SurveyorState(account: Option<Account>, synchronizationIsActive: bool,
                                         syncOnUnMeteredNetworkOnly: bool, contextAvailable: bool)

  const DefaultSyncOnUnMeteredNetworkOnly: bool := true

  /** The constructor: no account, synchronization inactive, metered networks excluded. */
  function NewSurveyor(contextAvailable: bool): (s: SurveyorState)
    ensures s.account.None? && !s.synchronizationIsActive
    ensures s.syncOnUnMeteredNetworkOnly
  {
    SurveyorState(None, false, DefaultSyncOnUnMeteredNetworkOnly, contextAvailable)
  }

  /** A request for an immediate sync of the account. */
  datatype SyncRequest = SyncRequest(account: Account, expedited: bool, manual: bool)

  /** scheduleSyncNow: one expedited manual request when there is an account and the network is syncable, none otherwise. */
  function ScheduleSyncNow(s: SurveyorState, net: Connectivity): (r: Option<SyncRequest>)
    ensures r.Some? <==> s.account.Some? && IsConnected(net, s.syncOnUnMeteredNetworkOnly)
    ensures r.Some? ==> r.value == SyncRequest(s.account.value, true, true)
  {
    match s.account
    case None => None
    case Some(a) => if IsConnected(net, s.syncOnUnMeteredNetworkOnly) then Some(SyncRequest(a, true, true)) else None
  }

  // ---------------------------------------------------------------------------------------------
  // Connectivity changes

  /** The action of a received broadcast; a broadcast without action is NoAction. */
  datatype IntentAction = ConnectivityAction | OtherAction | NoAction

  /**
   * An exception of the surveyor: a broadcast without action, a context that is gone, or the
   * platform refusing to unregister the connectivity receiver.
   */
  datatype SurveyorError = NullAction | NoContext | UnregisterRejected

  /** A setSyncAutomatically call and the value it sets. */
  datatype Received = Received(state: SurveyorState, setSyncAutomatically: Option<bool>)

  /**
   * onReceive: without an account nothing happens; a broadcast without action throws; only a
   * connectivity broadcast is considered. An established connection switches automatic sync on,
   * unless master sync is off; a lost connection switches it off; otherwise nothing changes.
   */
  function OnReceive(s: SurveyorState, action: IntentAction, net: Connectivity, masterSyncAutomatically: bool)
    : (r: Result<Received, SurveyorError>)
    ensures r.Failure? <==> s.account.Some? && action == NoAction
    ensures r.Success? ==> r.value.state == s.(synchronizationIsActive := r.value.state.synchronizationIsActive)
    ensures r.Success? && r.value.setSyncAutomatically.Some? ==>
      r.value.state.synchronizationIsActive == r.value.setSyncAutomatically.value != s.synchronizationIsActive
  {
    if s.account.None? then Success(Received(s, None))
    else if action == NoAction then Failure(NullAction)
    else if action != ConnectivityAction then Success(Received(s, None))
    else
      var connected := IsConnected(net, s.syncOnUnMeteredNetworkOnly);
      var connectionLost := s.synchronizationIsActive && !connected;
      var connectionEstablished := !s.synchronizationIsActive && connected;
      if connectionEstablished then
        if !masterSyncAutomatically then Success(Received(s, None))
        else Success(Received(s.(synchronizationIsActive := true), Some(true)))
      else if connectionLost then Success(Received(s.(synchronizationIsActive := false), Some(false)))
      else Success(Received(s, None))
  }

  /**
   * The transition table of onReceive for a connectivity broadcast with an account set: the state
   * changes exactly when it is inactive on a syncable network with master sync on (it becomes
   * active, automatic sync on) or active on an unsyncable one (it becomes inactive, automatic sync
   * off).
   */
  lemma OnReceiveTransitions(s: SurveyorState, net: Connectivity, master: bool)
    requires s.account.Some?
    ensures var r := OnReceive(s, ConnectivityAction, net, master);
      var connected := IsConnected(net, s.syncOnUnMeteredNetworkOnly);
      && r.Success?
      && (!s.synchronizationIsActive && connected && master ==>
            r.value == Received(s.(synchronizationIsActive := true), Some(true)))
      && (s.synchronizationIsActive && !connected ==>
            r.value == Received(s.(synchronizationIsActive := false), Some(false)))
      && (r.value.state != s <==> (!s.synchronizationIsActive && connected && master) || (s.synchronizationIsActive && !connected))
      && (r.value.state == s ==> r.value.setSyncAutomatically.None?)
  {
  }

  /** Without an account, or for a broadcast other than a connectivity change, onReceive changes nothing. */
  lemma OnReceiveIgnores(s: SurveyorState, action: IntentAction, net: Connectivity, master: bool)
    requires s.account.None? || action == OtherAction
    ensures OnReceive(s, action, net, master) == Success(Received(s, None))
  {
  }

  /** Receiving the same connectivity broadcast twice in the same conditions is receiving it once. */
  lemma OnReceiveIsIdempotent(s: SurveyorState, action: IntentAction, net: Connectivity, master: bool)
    requires OnReceive(s, action, net, master).Success?
    ensures var once := OnReceive(s, action, net, master).value.state;
      OnReceive(once, action, net, master) == Success(Received(once, None))
  {
  }

  /** With master sync on, after a connectivity broadcast the surveyor is active exactly when the network is syncable. */
  lemma ActiveTracksConnectivity(s: SurveyorState, net: Connectivity)
    requires s.account.Some?
    ensures OnReceive(s, ConnectivityAction, net, true).value.state.synchronizationIsActive
      == IsConnected(net, s.syncOnUnMeteredNetworkOnly)
  {
  }

  // ---------------------------------------------------------------------------------------------
  // Accounts

  /** Why getAccount throws: the account manager cannot be reached without a context, or the account count is not one. */
  datatype AccountError = ContextGone | NoAccount | MoreThanOneAccount

  /**
   * getAccount: the one account of the surveyor's type; none or several is an error. The account
   * manager is looked up from the context first, which fails when the context is gone.
   */
  function GetAccount(s: SurveyorState, accountsOfType: seq<Account>): (r: Result<Account, AccountError>)
    ensures r.Success? <==> s.contextAvailable && |accountsOfType| == 1
    ensures r.Success? ==> r.value == accountsOfType[0]
    ensures r == Failure(ContextGone) <==> !s.contextAvailable
    ensures r == Failure(NoAccount) <==> s.contextAvailable && |accountsOfType| == 0
  {
    if !s.contextAvailable then Failure(ContextGone)
    else if |accountsOfType| == 0 then Failure(NoAccount)
    else if |accountsOfType| > 1 then Failure(MoreThanOneAccount)
    else Success(accountsOfType[0])
  }

  /** The account manager's part of deleteAccount: the accounts left after removing one. */
  function RemoveAccount(accounts: seq<Account>, gone: Account): (r: seq<Account>)
    ensures gone !in r
    ensures forall a :: a in accounts && a != gone ==> a in r
    ensures forall a :: a in r ==> a in accounts
  {
    if |accounts| == 0 then []
    else if accounts[0] == gone then RemoveAccount(accounts[1..], gone)
    else [accounts[0]] + RemoveAccount(accounts[1..], gone)
  }

  /** The effects of deleteAccount: the surveyor state and the accounts the account manager keeps. */
  datatype Deleted = Deleted(state: SurveyorState, accounts: seq<Account>)

  /**
   * deleteAccount: removes the account of that name and the surveyor's type, and clears the
   * current account whichever name was given. The account manager is looked up from the context
   * before anything else, so with the context gone nothing is removed or cleared.
   */
  function DeleteAccount(s: SurveyorState, accounts: seq<Account>, username: string, accountType: string)
    : (r: Result<Deleted, SurveyorError>)
    ensures r.Failure? <==> !s.contextAvailable
    ensures r.Failure? ==> r.error == NoContext
    ensures r.Success? ==> r.value.state == s.(account := None)
    ensures r.Success? ==> Account(username, accountType) !in r.value.accounts
    ensures r.Success? ==> forall a :: a in accounts && a != Account(username, accountType) ==> a in r.value.accounts
  {
    if !s.contextAvailable then Failure(NoContext)
    else Success(Deleted(s.(account := None), RemoveAccount(accounts, Account(username, accountType))))
  }

  /** After a deleteAccount that went through, scheduleSyncNow requests nothing on any network. */
  lemma NoSyncAfterDelete(s: SurveyorState, accounts: seq<Account>, username: string, accountType: string, net: Connectivity)
    ensures var r := DeleteAccount(s, accounts, username, accountType);
      r.Success? ==> ScheduleSyncNow(r.value.state, net).None?
  {
  }

  // ---------------------------------------------------------------------------------------------
  // Surveillance

  /** The surveyor state after a call that may throw, and the sync request it issued. */
  datatype Started = Started(state: SurveyorState, request: Option<SyncRequest>)

  /**
   * startSurveillance: throws when the context is gone; otherwise sets the account first and then
   * schedules an immediate sync, so the request is for the new account.
   */
  function StartSurveillance(s: SurveyorState, account: Option<Account>, net: Connectivity)
    : (r: Result<Started, SurveyorError>)
    ensures r.Failure? <==> !s.contextAvailable
    ensures r.Success? ==> r.value.state == s.(account := account)
    ensures r.Success? ==> (r.value.request.Some? <==> account.Some? && IsConnected(net, s.syncOnUnMeteredNetworkOnly))
    ensures r.Success? && r.value.request.Some? ==> r.value.request.value.account == account.value
  {
    if !s.contextAvailable then Failure(NoContext)
    else
      var s' := s.(account := account);
      Success(Started(s', ScheduleSyncNow(s', net)))
  }

  /** The state after setSyncOnUnMeteredNetworkOnly, and the restart's request or the exception it threw. */
  datatype Flagged = Flagged(state: SurveyorState, restart: Result<Option<SyncRequest>, SurveyorError>)

  /**
   * stopSurveillance: throws when the context is gone, and when the platform refuses to unregister
   * (before Lollipop a receiver that is not registered, rethrown as a SynchronisationException;
   * from Lollipop on a rejected network callback, which leaves as it is). `unregisterRejected` is
   * that platform answer.
   */
  function StopSurveillance(s: SurveyorState, unregisterRejected: bool): (r: Option<SurveyorError>)
    ensures r.Some? <==> !s.contextAvailable || unregisterRejected
    ensures !s.contextAvailable ==> r == Some(NoContext)
  {
    if !s.contextAvailable then Some(NoContext)
    else if unregisterRejected then Some(UnregisterRejected)
    else None
  }

  /**
   * setSyncOnUnMeteredNetworkOnly: stores the flag, then stops and restarts surveillance with the
   * current account. The flag stays set even when stopping throws.
   */
  function SetSyncOnUnMeteredNetworkOnly(s: SurveyorState, flag: bool, net: Connectivity, unregisterRejected: bool)
    : (r: Flagged)
    ensures r.state == s.(syncOnUnMeteredNetworkOnly := flag)
    ensures r.restart.Failure? <==> !s.contextAvailable || unregisterRejected
    ensures r.restart.Success? ==> (r.restart.value.Some? <==> s.account.Some? && IsConnected(net, flag))
  {
    var s' := s.(syncOnUnMeteredNetworkOnly := flag);
    match StopSurveillance(s', unregisterRejected)
    case Some(e) => Flagged(s', Failure(e))
    case None =>
      match StartSurveillance(s', s.account, net)
      case Failure(e) => Flagged(s', Failure(e))
      case Success(started) => Flagged(started.state, Success(started.request))
  }

  /**
   * A restart that goes through issues exactly the request scheduleSyncNow issues in the new state,
   * so a later scheduleSyncNow sees the new flag; setting the same flag again changes nothing more.
   */
  lemma FlagChangeReschedules(s: SurveyorState, flag: bool, net: Connectivity)
    requires s.contextAvailable
    ensures var r := SetSyncOnUnMeteredNetworkOnly(s, flag, net, false);
      && r.restart == Success(ScheduleSyncNow(r.state, net))
      && SetSyncOnUnMeteredNetworkOnly(r.state, flag, net, false) == r
  {
  }

  /** Starting surveillance with an account on a syncable network issues the request for that account. */
  lemma StartThenScheduleUsesNewAccount(s: SurveyorState, a: Account, net: Connectivity)
    requires s.contextAvailable && IsConnected(net, s.syncOnUnMeteredNetworkOnly)
    ensures StartSurveillance(s, Some(a), net) == Success(Started(s.(account := Some(a)), Some(SyncRequest(a, true, true))))
  {
  }
}
