/** The connection badge and its button (`ConnectionStatus.tsx`): the
    status text and class, the button label, when it is disabled, and which
    hook callbacks a click runs. The outcome of `onConnect` is a
    parameter. */
module ConnectionStatus {
  datatype Status = Disconnected | Connecting | Connected | Error

  /** The hook callbacks a click may run, in order. */
  datatype Call = OnConnect | OnStartMonitoring | OnStopMonitoring

  function StatusText(status: Status, monitoring: bool): (r: string)
    ensures r == "接続済み - モニタリング中" <==> status == Connected && monitoring
  {
    match status
    case Connected => if monitoring then "接続済み - モニタリング中" else "接続済み"
    case Connecting => "接続中..."
    case Error => "接続エラー"
    case Disconnected => "未接続"
  }

  /** An error is styled like a disconnection. */
  function StatusClass(status: Status): (r: string)
    ensures r == "status disconnected" <==> status == Error || status == Disconnected
  {
    match status
    case Connected => "status connected"
    case Connecting => "status connecting"
    case _ => "status disconnected"
  }

  function ButtonText(status: Status, monitoring: bool): string {
    if status == Connecting then "接続中..."
    else if status == Connected then (if monitoring then "モニタリング停止" else "モニタリング開始")
    else "デバイスに接続"
  }

  predicate ButtonDisabled(status: Status) {
    status == Connecting
  }

  /** The separate disconnect button is shown only while connected. */
  predicate ShowsDisconnect(status: Status) {
    status == Connected
  }

  /** `handleButtonClick`. */
  function Click(status: Status, monitoring: bool, connectSucceeds: bool): (r: seq<Call>)
    ensures status == Connected ==> r == (if monitoring then [OnStopMonitoring] else [OnStartMonitoring])
    ensures status == Disconnected || status == Error ==>
              r == (if connectSucceeds then [OnConnect, OnStartMonitoring] else [OnConnect])
    ensures status == Connecting ==> r == []
  {
    match status
    case Connected => if monitoring then [OnStopMonitoring] else [OnStartMonitoring]
    case Connecting => []
    case _ => if connectSucceeds then [OnConnect, OnStartMonitoring] else [OnConnect]
  }

  /** The status text depends on the monitoring flag only while
      connected. */
  lemma TextDependsOnMonitoringOnlyWhenConnected(status: Status)
    ensures status != Connected ==> StatusText(status, true) == StatusText(status, false)
    ensures status == Connected ==> StatusText(status, true) != StatusText(status, false)
  {
  }

  /** The label announces what a click does: a click does something
      exactly when the button is enabled, monitoring is started only
      while connected or after a connection that succeeded, and the label
      names the callback the click starts with. */
  lemma LabelMatchesClick(status: Status, monitoring: bool, connectSucceeds: bool)
    ensures Click(status, monitoring, connectSucceeds) == [] <==> ButtonDisabled(status)
    ensures OnStartMonitoring in Click(status, monitoring, connectSucceeds) ==>
              (status == Connected && !monitoring) || connectSucceeds
    ensures ButtonText(status, monitoring) == "モニタリング停止" <==> Click(status, monitoring, connectSucceeds) == [OnStopMonitoring]
    ensures ButtonText(status, monitoring) == "モニタリング開始" <==> Click(status, monitoring, connectSucceeds) == [OnStartMonitoring]
    ensures ButtonText(status, monitoring) == "デバイスに接続" <==>
              (|Click(status, monitoring, connectSucceeds)| > 0 && Click(status, monitoring, connectSucceeds)[0] == OnConnect)
  {
  }

  /** Disconnecting is offered exactly when the main button controls
      monitoring. */
  lemma DisconnectOfferedWithMonitoringControl(status: Status, monitoring: bool)
    ensures ShowsDisconnect(status) <==> ButtonText(status, monitoring) in {"モニタリング停止", "モニタリング開始"}
  {
  }
}
