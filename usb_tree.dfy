/**
  The USB-tree classifier of the Arduino detector.

  `system_profiler SPUSBDataType -json` describes the USB buses as a tree of
  JSON objects. Every object has string fields (`_name`, `vendor_id`,
  `product_id`, `bcd_device`, `speed`, `location_id`, `serial_num`, ...) and
  may have an `_items` list of child objects. The classifier walks the
  devices below each bus, keeps the ones that look like Arduino boards or
  USB-serial adapters, and turns each into a flat record.
 */
module UsbTree {
  import opened Wrappers
  import opened Text

  /** One decoded JSON object of the device tree. */
  datatype Node = Node(fields: map<string, string>, items: Items)

  /** The `_items` key of an object: absent, or a list of child objects. */
  datatype Items = Absent | Present(nodes: seq<Node>)

  /** The record built for a reported device. */
  datatype DeviceInfo = DeviceInfo(
    name: string,
    vendorId: string,
    productId: string,
    version: string,
    speed: string,
    locationId: string,
    manufacturer: string,
    serialNumber: string)

  /** Known USB vendor ids (lower-case hexadecimal) and the chip maker each stands for. */
  const ArduinoIds: map<string, string> := map[
    "0x2341" := "Arduino",
    "0x1a86" := "CH340/CH341",
    "0x0403" := "FTDI",
    "0x10c4" := "Silicon Labs",
    "0x067b" := "Prolific"
  ]

  /** The default for a missing field and for an unlisted vendor. */
  const Unknown: string := "Unknown"

  /** Concatenation regrouped, stated once: the solver finds it expensive to rediscover in long chains. */
  lemma AppendAssoc<T>(x: seq<T>, y: seq<T>, z: seq<T>)
    ensures x + (y + z) == (x + y) + z
  {
  }

  lemma AppendAssoc4<T>(s: seq<T>, p: seq<T>, o: seq<T>, c: seq<T>)
    ensures s + p + o + c == s + (p + (o + c))
  {
  }

  /** The children of an object: its `_items`, or none when the key is absent. */
  function Children(n: Node): (r: seq<Node>)
    ensures n.items.Present? ==> r == n.items.nodes
    ensures n.items.Absent? ==> r == []
  {
    match n.items
    case Absent => []
    case Present(nodes) => nodes
  }

  /** `item.get(key, default)`. */
  function Get(n: Node, key: string, default: string): (r: string)
    ensures key !in n.fields ==> r == default
    ensures r == default || r in n.fields.Values
  {
    if key in n.fields then n.fields[key] else default
  }

  /** The vendor id as the classifier compares it: lower-cased, `''` when missing. */
  function VendorKey(n: Node): (r: string)
    ensures Lower(r) == r
    ensures "vendor_id" !in n.fields ==> r == ""
  {
    LowerIdempotent(Get(n, "vendor_id", ""));
    Lower(Get(n, "vendor_id", ""))
  }

  /** The product name as the classifier compares it: lower-cased, `''` when missing. */
  function NameKey(n: Node): (r: string)
    ensures Lower(r) == r
    ensures "_name" !in n.fields ==> r == ""
  {
    LowerIdempotent(Get(n, "_name", ""));
    Lower(Get(n, "_name", ""))
  }

  /**
    Whether a device object is reported (the `is_arduino` test). An object
    with neither a `vendor_id` nor a `_name` never is.
   */
  predicate IsArduino(n: Node): (r: bool)
    ensures r ==> "vendor_id" in n.fields || "_name" in n.fields
  {
    NotInEmpty("arduino");
    NotInEmpty("serial");
    NotInEmpty("ch340");
    NotInEmpty("ftdi");
    NotInEmpty("usb2.0-serial");
    VendorKey(n) in ArduinoIds ||
    Contains(NameKey(n), "arduino") ||
    Contains(NameKey(n), "serial") ||
    Contains(NameKey(n), "ch340") ||
    Contains(NameKey(n), "ftdi") ||
    Contains(NameKey(n), "usb2.0-serial")
  }

  /**
    The `device_info` record of a device object. Its manufacturer is a chip
    maker of the vendor table or `Unknown`, and a known one means the object
    is reported.
   */
  function Record(n: Node): (r: DeviceInfo)
    ensures r.manufacturer == Unknown || r.manufacturer in ArduinoIds.Values
    ensures r.manufacturer != Unknown ==> IsArduino(n)
  {
    DeviceInfo(
      Get(n, "_name", Unknown),
      Get(n, "vendor_id", Unknown),
      Get(n, "product_id", Unknown),
      Get(n, "bcd_device", Unknown),
      Get(n, "speed", Unknown),
      Get(n, "location_id", Unknown),
      if VendorKey(n) in ArduinoIds then ArduinoIds[VendorKey(n)] else Unknown,
      Get(n, "serial_num", Unknown))
  }

  /** The record a single object contributes by itself: one if it matches, none otherwise. */
  function Own(n: Node): seq<DeviceInfo> {
    if IsArduino(n) then [Record(n)] else []
  }

  // ---------------------------------------------------------------------
  // The search, as a specification: records of a list of objects, each
  // object's own record (if any) first, then those of its `_items`.
  // ---------------------------------------------------------------------

  /** Never more records than objects searched. */
  function Reported(items: seq<Node>): (r: seq<DeviceInfo>)
    ensures |r| <= |PreOrder(items)|
    decreases items
  {
    if items == [] then [] else ReportedFrom(items[0]) + Reported(items[1..])
  }

  function ReportedFrom(n: Node): (r: seq<DeviceInfo>)
    ensures |r| <= |PreOrderFrom(n)|
    decreases n
  {
    Own(n) +
    (match n.items
     case Absent => []
     case Present(children) => Reported(children))
  }

  // ---------------------------------------------------------------------
  // An independent description: list every object in pre-order, keep the
  // reported ones, build their records.
  // ---------------------------------------------------------------------

  /** All objects of a list and of their `_items`, each before its descendants. */
  function PreOrder(items: seq<Node>): seq<Node>
    decreases items
  {
    if items == [] then [] else PreOrderFrom(items[0]) + PreOrder(items[1..])
  }

  function PreOrderFrom(n: Node): seq<Node>
    decreases n
  {
    [n] +
    (match n.items
     case Absent => []
     case Present(children) => PreOrder(children))
  }

  /** The objects of `ns` that the classifier keeps, in their order. */
  function Matching(ns: seq<Node>): seq<Node> {
    if ns == [] then []
    else (if IsArduino(ns[0]) then [ns[0]] else []) + Matching(ns[1..])
  }

  lemma {:induction false} MatchingSpec(ns: seq<Node>)
    ensures |Matching(ns)| <= |ns|
    ensures forall n :: n in Matching(ns) <==> n in ns && IsArduino(n)
  {
    if ns != [] {
      MatchingSpec(ns[1..]);
      assert ns == [ns[0]] + ns[1..];
    }
  }

  /** Nothing is kept from a list without a matching object. */
  lemma {:induction false} MatchingNone(ns: seq<Node>)
    requires forall n :: n in ns ==> !IsArduino(n)
    ensures Matching(ns) == []
  {
    if ns != [] {
      MatchingNone(ns[1..]);
    }
  }

  function Records(ns: seq<Node>): seq<DeviceInfo> {
    seq(|ns|, i requires 0 <= i < |ns| => Record(ns[i]))
  }

  lemma RecordsAppend(a: seq<Node>, b: seq<Node>)
    ensures Records(a + b) == Records(a) + Records(b)
  {
  }

  lemma {:induction false} MatchingAppend(a: seq<Node>, b: seq<Node>)
    ensures Matching(a + b) == Matching(a) + Matching(b)
  {
    if a == [] {
      assert a + b == b;
    } else {
      MatchingAppend(a[1..], b);
      assert (a + b)[0] == a[0] && (a + b)[1..] == a[1..] + b;
      AppendAssoc((if IsArduino(a[0]) then [a[0]] else []), Matching(a[1..]), Matching(b));
    }
  }

  lemma {:induction false} PreOrderAppend(a: seq<Node>, b: seq<Node>)
    ensures PreOrder(a + b) == PreOrder(a) + PreOrder(b)
  {
    if a == [] {
      assert a + b == b;
    } else {
      PreOrderAppend(a[1..], b);
      assert (a + b)[0] == a[0] && (a + b)[1..] == a[1..] + b;
      AppendAssoc(PreOrderFrom(a[0]), PreOrder(a[1..]), PreOrder(b));
    }
  }

  /** Searching two sibling lists one after the other gives their records in that order. */
  lemma {:induction false} ReportedAppend(a: seq<Node>, b: seq<Node>)
    ensures Reported(a + b) == Reported(a) + Reported(b)
  {
    if a == [] {
      assert a + b == b;
    } else {
      ReportedCons(a, b);
      ReportedAppend(a[1..], b);
      AppendAssoc(ReportedFrom(a[0]), Reported(a[1..]), Reported(b));
    }
  }

  /** Searching a list that starts with `a[0]`: that object first, then the rest. */
  lemma ReportedCons(a: seq<Node>, b: seq<Node>)
    requires a != []
    ensures Reported(a + b) == ReportedFrom(a[0]) + Reported(a[1..] + b)
  {
    assert (a + b)[0] == a[0] && (a + b)[1..] == a[1..] + b;
  }

  /** The search reports exactly the matching objects of the pre-order listing, in that order. */
  lemma {:induction false} ReportedIsFilterMap(items: seq<Node>)
    ensures Reported(items) == Records(Matching(PreOrder(items)))
    decreases items
  {
    if items != [] {
      ReportedFromIsFilterMap(items[0]);
      ReportedIsFilterMap(items[1..]);
      MatchingAppend(PreOrderFrom(items[0]), PreOrder(items[1..]));
      RecordsAppend(Matching(PreOrderFrom(items[0])), Matching(PreOrder(items[1..])));
    }
  }

  lemma {:induction false} ReportedFromIsFilterMap(n: Node)
    ensures ReportedFrom(n) == Records(Matching(PreOrderFrom(n)))
    decreases n
  {
    var own := if IsArduino(n) then [n] else [];
    assert Matching([n]) == own + Matching([]);
    assert Own(n) == Records(own);
    match n.items
    case Absent =>
      assert PreOrderFrom(n) == [n];
    case Present(children) =>
      ReportedIsFilterMap(children);
      MatchingAppend([n], PreOrder(children));
      RecordsAppend(own, Matching(PreOrder(children)));
      assert PreOrderFrom(n) == [n] + PreOrder(children);
  }

  /** A record is reported iff it is the record of some matching object in the tree. */
  lemma ReportedIff(items: seq<Node>, r: DeviceInfo)
    ensures r in Reported(items) <==> exists n :: n in PreOrder(items) && IsArduino(n) && Record(n) == r
  {
    ReportedIsFilterMap(items);
    MatchingSpec(PreOrder(items));
    var m := Matching(PreOrder(items));
    if r in Reported(items) {
      var i :| 0 <= i < |m| && Records(m)[i] == r;
      assert m[i] in m;
    }
    if n :| n in PreOrder(items) && IsArduino(n) && Record(n) == r {
      assert n in m;
      var i :| 0 <= i < |m| && m[i] == n;
      assert Records(m)[i] == r;
    }
  }

  lemma {:induction false} ChildInPreOrder(items: seq<Node>, c: Node)
    requires c in items
    ensures c in PreOrder(items)
  {
    if items[0] != c {
      ChildInPreOrder(items[1..], c);
    }
  }

  /**
    A matching child is reported below its parent whether or not the parent
    itself matched: `_items` lists are always searched.
   */
  lemma DescendantAlwaysSearched(parent: Node, c: Node)
    requires parent.items.Present? && c in parent.items.nodes && IsArduino(c)
    ensures Record(c) in ReportedFrom(parent)
  {
    ChildInPreOrder(parent.items.nodes, c);
    ReportedIff(parent.items.nodes, Record(c));
  }

  // ---------------------------------------------------------------------
  // Properties of the classifier and of the records.
  // ---------------------------------------------------------------------

  /** The `usb2.0-serial` marker adds nothing: every such name already contains `serial`. */
  lemma UsbSerialMarkerRedundant(n: Node)
    ensures IsArduino(n) <==>
      VendorKey(n) in ArduinoIds ||
      Contains(NameKey(n), "arduino") ||
      Contains(NameKey(n), "serial") ||
      Contains(NameKey(n), "ch340") ||
      Contains(NameKey(n), "ftdi")
  {
    if Contains(NameKey(n), "usb2.0-serial") {
      assert "usb2.0-serial" == "usb2.0-" + "serial";
      ContainsSuffix(NameKey(n), "usb2.0-", "serial");
    }
  }

  /**
    A record names a manufacturer other than `Unknown` exactly when the
    lower-cased vendor id is in the table.
   */
  lemma ManufacturerKnownIffListedVendor(n: Node)
    ensures Record(n).manufacturer != Unknown <==> VendorKey(n) in ArduinoIds
    ensures VendorKey(n) in ArduinoIds ==> Record(n).manufacturer == ArduinoIds[VendorKey(n)]
  {
  }

  /**
    The seven copied fields keep the object's own spelling (not the
    lower-cased one used for matching) and default to `Unknown`.
   */
  lemma RecordCopiesFields(n: Node)
    ensures "_name" in n.fields ==> Record(n).name == n.fields["_name"]
    ensures "vendor_id" in n.fields ==> Record(n).vendorId == n.fields["vendor_id"]
    ensures "product_id" in n.fields ==> Record(n).productId == n.fields["product_id"]
    ensures "bcd_device" in n.fields ==> Record(n).version == n.fields["bcd_device"]
    ensures "speed" in n.fields ==> Record(n).speed == n.fields["speed"]
    ensures "location_id" in n.fields ==> Record(n).locationId == n.fields["location_id"]
    ensures "serial_num" in n.fields ==> Record(n).serialNumber == n.fields["serial_num"]
    ensures "_name" !in n.fields ==> Record(n).name == Unknown
    ensures "vendor_id" !in n.fields ==> Record(n).vendorId == Unknown
    ensures "product_id" !in n.fields ==> Record(n).productId == Unknown
    ensures "bcd_device" !in n.fields ==> Record(n).version == Unknown
    ensures "speed" !in n.fields ==> Record(n).speed == Unknown
    ensures "location_id" !in n.fields ==> Record(n).locationId == Unknown
    ensures "serial_num" !in n.fields ==> Record(n).serialNumber == Unknown
  {
  }

  /**
    Vendor ids match regardless of case, while the record keeps the
    original spelling: `0X1A86` is reported as a CH340 with vendor id `0X1A86`.
   */
  lemma UpperCaseVendorIdMatches(n: Node)
    requires n.fields == map["vendor_id" := "0X1A86"]
    ensures IsArduino(n)
    ensures Record(n).manufacturer == "CH340/CH341"
    ensures Record(n).vendorId == "0X1A86" && Record(n).name == Unknown
  {
    assert Lower("0X1A86") == "0x1a86";
  }

  // ---------------------------------------------------------------------
  // The search as the program runs it: a recursive walk that appends to
  // one shared list.
  // ---------------------------------------------------------------------

  /** The list `arduino_devices` that `search_usb_tree` appends to. */
  class DeviceCollector {
    var devices: seq<DeviceInfo>

    constructor ()
      ensures devices == []
    {
      devices := [];
    }

    /**
      `search_usb_tree(items, parent_info)`: appends the records of `items`
      and of everything below them. `parentInfo` is never read.
     */
    method SearchUsbTree(items: seq<Node>, parentInfo: Option<Node>)
      modifies this
      ensures devices == old(devices) + Reported(items)
      decreases |PreOrder(items)|
    {
      for i := 0 to |items|
        invariant devices == old(devices) + Reported(items[..i])
      {
        var item := items[i];
        ghost var before := devices;
        if IsArduino(item) {
          devices := devices + [Record(item)];
        }
        assert devices == before + Own(item);
        ghost var own := devices;
        if item.items.Present? {
          ChildrenFewer(items, i);
          SearchUsbTree(item.items.nodes, Some(item));
        } else {
          assert devices == own + [];
        }
        SearchStep(old(devices), items, i, own, devices);
      }
      assert items[..|items|] == items;
    }
  }

  /** One step of the walk: the records of the first `i` objects, then the next object's own and its children's. */
  lemma SearchStep(start: seq<DeviceInfo>, items: seq<Node>, i: nat, own: seq<DeviceInfo>, after: seq<DeviceInfo>)
    requires i < |items|
    requires own == start + Reported(items[..i]) + Own(items[i])
    requires after == own + Reported(Children(items[i]))
    ensures after == start + Reported(items[..i + 1])
  {
    ReportedSnoc(items, i);
    ReportedFromSplit(items[i]);
    AppendAssoc4(start, Reported(items[..i]), Own(items[i]), Reported(Children(items[i])));
  }

  /** The records of the first `i + 1` objects: those of the first `i`, then the next object's. */
  lemma ReportedSnoc(items: seq<Node>, i: nat)
    requires i < |items|
    ensures Reported(items[..i + 1]) == Reported(items[..i]) + ReportedFrom(items[i])
  {
    var item := items[i];
    assert items[..i + 1] == items[..i] + [item];
    assert Reported([item]) == ReportedFrom(item) + Reported([]);
    assert ReportedFrom(item) + [] == ReportedFrom(item);
    ReportedAppend(items[..i], [item]);
  }

  /** One object's records: its own, then its children's. */
  lemma ReportedFromSplit(n: Node)
    ensures ReportedFrom(n) == Own(n) + Reported(Children(n))
  {
  }

  /** The `_items` of one object hold fewer objects than the list it belongs to. */
  lemma ChildrenFewer(items: seq<Node>, i: nat)
    requires i < |items|
    ensures |PreOrder(Children(items[i]))| < |PreOrder(items)|
  {
    assert items == items[..i] + [items[i]] + items[i + 1..];
    PreOrderAppend(items[..i] + [items[i]], items[i + 1..]);
    PreOrderAppend(items[..i], [items[i]]);
  }

  // ---------------------------------------------------------------------
  // The bus loop of `get_usb_device_info`.
  // ---------------------------------------------------------------------

  /** The decoded output of `system_profiler`: `SPUSBDataType` may be missing. */
  datatype UsbData = UsbData(spUsbDataType: Option<seq<Node>>)

  /** `usb_data.get('SPUSBDataType', [])`. */
  function Buses(data: UsbData): (r: seq<Node>)
    ensures data.spUsbDataType.None? ==> r == []
    ensures data.spUsbDataType.Some? ==> r == data.spUsbDataType.value
  {
    match data.spUsbDataType
    case None => []
    case Some(buses) => buses
  }

  /** The objects directly under the buses, bus by bus; a bus without `_items` adds none. */
  function BusItems(buses: seq<Node>): (r: seq<Node>)
    ensures forall n :: n in r <==> exists j :: 0 <= j < |buses| && n in Children(buses[j])
  {
    if buses == [] then []
    else Children(buses[0]) + BusItems(buses[1..])
  }

  /**
    What `get_usb_device_info` returns, given what `system_profiler` and
    `json.loads` produced (`None` when either failed).
   */
  function UsbDevices(decoded: Option<UsbData>): (r: seq<DeviceInfo>)
    ensures decoded.None? ==> r == []
    ensures decoded.Some? ==> |r| <= |PreOrder(BusItems(Buses(decoded.value)))|
  {
    match decoded
    case None => []
    case Some(data) => Reported(BusItems(Buses(data)))
  }

  lemma {:induction false} BusItemsAppend(a: seq<Node>, b: seq<Node>)
    ensures BusItems(a + b) == BusItems(a) + BusItems(b)
  {
    if a != [] {
      assert (a + b)[1..] == a[1..] + b;
      BusItemsAppend(a[1..], b);
      assert (a + b)[0] == a[0] && (a + b)[1..] == a[1..] + b;
      AppendAssoc(Children(a[0]), BusItems(a[1..]), BusItems(b));
    } else {
      assert a + b == b;
    }
  }

  /** One step of the bus loop: the next bus adds the records of its `_items`. */
  lemma BusStep(buses: seq<Node>, i: nat, before: seq<DeviceInfo>, after: seq<DeviceInfo>)
    requires i < |buses|
    requires before == Reported(BusItems(buses[..i]))
    requires after == before + Reported(Children(buses[i]))
    ensures after == Reported(BusItems(buses[..i + 1]))
  {
    var bus := buses[i];
    assert BusItems([bus]) == Children(bus) + BusItems([]);
    assert Children(bus) + [] == Children(bus);
    assert buses[..i + 1] == buses[..i] + [bus];
    BusItemsAppend(buses[..i], [bus]);
    ReportedAppend(BusItems(buses[..i]), BusItems([bus]));
  }

  method GetUsbDeviceInfo(decoded: Option<UsbData>) returns (devices: seq<DeviceInfo>)
    ensures devices == UsbDevices(decoded)
  {
    if decoded.None? {
      return [];
    }
    var buses := Buses(decoded.value);
    var collector := new DeviceCollector();
    for i := 0 to |buses|
      invariant collector.devices == Reported(BusItems(buses[..i]))
    {
      var bus := buses[i];
      ghost var before := collector.devices;
      if bus.items.Present? {
        collector.SearchUsbTree(bus.items.nodes, None);
      } else {
        assert collector.devices == before + [];
      }
      BusStep(buses, i, before, collector.devices);
    }
    assert buses[..|buses|] == buses;
    devices := collector.devices;
  }

  /** Every reported record comes from a matching object strictly below some bus. */
  lemma UsbDevicesFromBelowBuses(data: UsbData, r: DeviceInfo)
    requires r in UsbDevices(Some(data))
    ensures exists n :: n in PreOrder(BusItems(Buses(data))) && IsArduino(n) && Record(n) == r
  {
    ReportedIff(BusItems(Buses(data)), r);
  }

  /** Removing a bus that has no `_items` changes nothing. */
  lemma BusWithoutItemsIgnored(buses: seq<Node>, i: nat)
    requires i < |buses| && buses[i].items.Absent?
    ensures BusItems(buses) == BusItems(buses[..i] + buses[i + 1..])
  {
    var before, bus, after := buses[..i], buses[i], buses[i + 1..];
    assert buses == (before + [bus]) + after;
    assert BusItems([bus]) == Children(bus) + BusItems([]);
    BusItemsAppend(before, [bus]);
    assert BusItems(before + [bus]) == BusItems(before);
    BusItemsAppend(before + [bus], after);
    BusItemsAppend(before, after);
  }

  /**
    A bus is never itself classified, even when its own name or vendor id
    would match: with no matching object below it, it yields no record,
    whether or not it has `_items`.
   */
  lemma BusNotClassified(bus: Node)
    requires forall n :: n in PreOrder(Children(bus)) ==> !IsArduino(n)
    ensures UsbDevices(Some(UsbData(Some([bus])))) == []
  {
    assert BusItems([bus]) == Children(bus) + BusItems([]);
    assert BusItems([bus]) == Children(bus);
    MatchingNone(PreOrder(Children(bus)));
    ReportedIsFilterMap(Children(bus));
  }
}
