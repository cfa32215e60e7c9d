/** The display rules of src/components/OPSConfigDisplay.tsx: the connection
    status text, the colour bands of the usage bars, the storage size
    passthrough and the network adapter panel. */
module OpsConfigDisplay {
  import opened Wrappers
  import Utils

  // ---------------------------------------------------------------------------
  // getConnectionStatusText
  // ---------------------------------------------------------------------------

  /** The own entries of the `statusMap` object literal. */
  const StatusMap: map<string, string> :=
    map["connected" := "已连接", "disconnected" := "未连接", "up" := "已连接", "down" := "未连接"]

  /** The property names every object literal inherits from Object.prototype;
      reading one of them from `statusMap` yields a function or an object,
      which is truthy. */
  const InheritedNames: set<string> := {
    "constructor", "hasOwnProperty", "isPrototypeOf", "propertyIsEnumerable",
    "toLocaleString", "toString", "valueOf", "__proto__",
    "__defineGetter__", "__defineSetter__", "__lookupGetter__", "__lookupSetter__"
  }

  /** A value `statusMap[status] || status` can evaluate to. */
  datatype LookupValue = Text(s: string) | InheritedMember(name: string)

  /** getConnectionStatusText as written: a plain object used as a dictionary,
      so an inherited member name finds the inherited member. */
  function GetConnectionStatusTextAsWritten(status: string): (v: LookupValue)
    ensures status !in InheritedNames ==> v.Text?
  {
    if status in StatusMap then Text(StatusMap[status])
    else if status in InheritedNames then InheritedMember(status)
    else Text(status)
  }

  /** The lookup as written does not return a string for "toString". */
  lemma InheritedNameIsNotText()
    ensures !GetConnectionStatusTextAsWritten("toString").Text?
  {
  }

  /** getConnectionStatusText as intended: the own entries of the map, and the
      status itself for every other string. */
  function GetConnectionStatusText(status: string): (text: string)
    ensures status == "connected" || status == "up" ==> text == "已连接"
    ensures status == "disconnected" || status == "down" ==> text == "未连接"
    ensures status != "connected" && status != "up" && status != "disconnected" && status != "down" ==>
              text == status
  {
    if status in StatusMap then StatusMap[status] else status
  }

  /** The code as written and the intended lookup agree on every status that
      is not an inherited member name, in particular on the two the component
      passes. */
  lemma AsWrittenAgreesOutsideInheritedNames(status: string)
    requires status !in InheritedNames
    ensures GetConnectionStatusTextAsWritten(status) == Text(GetConnectionStatusText(status))
  {
  }

  // ---------------------------------------------------------------------------
  // Colour bands of the usage bars
  // ---------------------------------------------------------------------------

  /** getPerformanceColor (the component's own, in shade 400). */
  function GetPerformanceColor(usage: Utils.JsNumber): (cls: string)
    ensures cls == "text-" + Utils.BandName(Utils.BandOf(usage)) + "-400"
  {
    if Utils.Below(usage, 50.0) then "text-green-400"
    else if Utils.Below(usage, 80.0) then "text-yellow-400"
    else "text-red-400"
  }

  /** getPerformanceBgColor (the component's own, in shade 400). */
  function GetPerformanceBgColor(usage: Utils.JsNumber): (cls: string)
    ensures cls == "bg-" + Utils.BandName(Utils.BandOf(usage)) + "-400"
  {
    if Utils.Below(usage, 50.0) then "bg-green-400"
    else if Utils.Below(usage, 80.0) then "bg-yellow-400"
    else "bg-red-400"
  }

  /** The bar and its figure always share a colour family, and it is the
      family the shared helpers of the utilities pick. */
  lemma BarColoursAgree(usage: Utils.JsNumber)
    ensures var text := GetPerformanceColor(usage);
            var bg := GetPerformanceBgColor(usage);
            text[5..|text| - 4] == bg[3..|bg| - 4]
    ensures var mine := GetPerformanceColor(usage);
            var shared := Utils.GetPerformanceColor(usage);
            mine[..|mine| - 4] == shared[..|shared| - 4]
  {
    var family := Utils.BandName(Utils.BandOf(usage));
    var text := GetPerformanceColor(usage);
    assert text == "text-" + family + "-400";
    assert text[5..|text| - 4] == family;
    var bg := GetPerformanceBgColor(usage);
    assert bg == "bg-" + family + "-400";
    assert bg[3..|bg| - 4] == family;
    var shared := Utils.GetPerformanceColor(usage);
    assert shared == "text-" + family + "-500";
    assert text[..|text| - 4] == "text-" + family;
    assert shared[..|shared| - 4] == "text-" + family;
  }

  // ---------------------------------------------------------------------------
  // formatStorageSize
  // ---------------------------------------------------------------------------

  /** A disk size field: the documents give it either as text or as a byte count. */
  datatype StorageSize = SizeText(text: string) | SizeBytes(bytes: Utils.JsNumber)

  /** What formatStorageSize returns: the text unchanged, or the byte count
      rendered in terabytes (one decimal) or gigabytes (no decimals); the
      floating-point rendering itself is left abstract. */
  datatype StorageText = Verbatim(text: string) | InTerabytes(bytes: Utils.JsNumber) | InGigabytes(bytes: Utils.JsNumber)

  const BytesPerGigabyte: real := 1073741824.0

  /** `gb >= 1024` for `gb = bytes / 1024^3` */
  predicate AtLeastATerabyte(bytes: Utils.JsNumber) {
    match bytes
    case Finite(v) => v / BytesPerGigabyte >= 1024.0
    case PositiveInfinity => true
    case NegativeInfinity => false
    case NaN => false
  }

  /** formatStorageSize(bytes) */
  function FormatStorageSize(size: StorageSize): (r: StorageText)
    ensures size.SizeText? ==> r == Verbatim(size.text)
    ensures size.SizeBytes? && size.bytes.Finite? ==>
              (r == InTerabytes(size.bytes) <==> size.bytes.value >= 1099511627776.0)
    ensures size.SizeBytes? ==> r == InTerabytes(size.bytes) || r == InGigabytes(size.bytes)
  {
    match size
    case SizeText(text) => Verbatim(text)
    case SizeBytes(bytes) =>
      if AtLeastATerabyte(bytes) then InTerabytes(bytes) else InGigabytes(bytes)
  }

  // ---------------------------------------------------------------------------
  // Network adapters
  // ---------------------------------------------------------------------------

  /** The fields of a network interface entry that the panel shows. */
  datatype Adapter = Adapter(iface: string, ip4: string, mac: string, operstate: string)

  /** One row of the adapter panel: the name, the status colour class and text,
      the IPv4 address and the MAC address. */
  datatype AdapterRow = AdapterRow(iface: string, statusClass: string, statusText: string, ip4: string, mac: string)

  /** `network.slice(0, 2)` */
  function ShownAdapters(network: seq<Adapter>): (shown: seq<Adapter>)
    ensures |shown| == if |network| < 2 then |network| else 2
    ensures shown == network[..|shown|]
  {
    if |network| <= 2 then network else network[..2]
  }

  /** The row of one listed adapter. */
  function AdapterRowOf(a: Adapter): (row: AdapterRow)
    ensures row.iface == a.iface && row.ip4 == a.ip4 && row.mac == a.mac
    ensures row.statusClass == "text-green-400" <==> a.operstate == "up"
    ensures row.statusText == "已连接" <==> a.operstate == "up"
  {
    var up := a.operstate == "up";
    AdapterRow(a.iface,
               if up then "text-green-400" else "text-red-400",
               GetConnectionStatusText(if up then "connected" else "disconnected"),
               a.ip4, a.mac)
  }

  /** What the panel shows: the rows of the listed adapters, or the fallback
      row when `windowsConfig?.system.network?.slice(0, 2)` is undefined. */
  datatype AdapterPanel = Listed(rows: seq<AdapterRow>) | Fallback(row: AdapterRow)

  /** The built-in values of the fallback row. */
  const FallbackIface: string := "Realtek PCIe GbE"
  const FallbackIp: string := "192.168.1.100"
  const FallbackMac: string := "00:1B:44:11:3A:B7"

  /** The fallback row, with the guards the component writes in it; `network`
      is None when there is no document or the document has no network list. */
  function FallbackRow(network: Option<seq<Adapter>>): (row: AdapterRow)
    ensures network.None? || network == Some([]) ==>
              row == AdapterRow(FallbackIface, "text-red-400", "未连接", FallbackIp, FallbackMac)
    ensures network.Some? && |network.value| > 0 ==>
              && row.iface == network.value[0].iface
              && (row.statusText == "已连接" <==> network.value[0].operstate == "up")
              && row.ip4 == (if network.value[0].ip4 == "" then FallbackIp else network.value[0].ip4)
              && row.mac == (if network.value[0].mac == "" then FallbackMac else network.value[0].mac)
  {
    var first := if network.Some? && |network.value| > 0 then Some(network.value[0]) else None;
    var up := first.Some? && first.value.operstate == "up";
    AdapterRow(
      if first.Some? then first.value.iface else FallbackIface,
      if up then "text-green-400" else "text-red-400",
      GetConnectionStatusText(if up then "connected" else "disconnected"),
      if first.Some? && first.value.ip4 != "" then first.value.ip4 else FallbackIp,
      if first.Some? && first.value.mac != "" then first.value.mac else FallbackMac)
  }

  /** The network adapter panel. */
  function NetworkPanel(network: Option<seq<Adapter>>): (panel: AdapterPanel)
    ensures network.Some? <==> panel.Listed?
  {
    match network
    case Some(list) =>
      var shown := ShownAdapters(list);
      Listed(seq(|shown|, i requires 0 <= i < |shown| => AdapterRowOf(shown[i])))
    case None => Fallback(FallbackRow(network))
  }

  /** At most the first two adapters are listed, in their order, each shown
      as connected exactly when its operstate is 'up'. */
  lemma ListedAdapters(list: seq<Adapter>)
    ensures var panel := NetworkPanel(Some(list));
            && |panel.rows| == (if |list| < 2 then |list| else 2)
            && forall i :: 0 <= i < |panel.rows| ==>
                 && panel.rows[i].iface == list[i].iface
                 && (panel.rows[i].statusText == "已连接" <==> list[i].operstate == "up")
  {
    var shown := ShownAdapters(list);
    forall i | 0 <= i < |shown| ensures shown[i] == list[i] {
      assert shown == list[..|shown|];
    }
  }

  /** The fallback only appears when there is no adapter list, so its guards
      on the first adapter never hold: it always shows the built-in defaults,
      disconnected. An empty adapter list shows no row at all. */
  lemma FallbackShowsDefaults()
    ensures NetworkPanel(None) ==
      Fallback(AdapterRow("Realtek PCIe GbE", "text-red-400", "未连接", "192.168.1.100", "00:1B:44:11:3A:B7"))
    ensures NetworkPanel(Some([])) == Listed([])
  {
  }
}
