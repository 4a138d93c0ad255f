/**
  The detector's top level: gathering serial ports and USB records into one
  result (`detect_arduino_devices`) and choosing what the report shows
  (`print_device_info`), without the console text itself.
 */
module Detector {
  import opened Wrappers
  import opened Text
  import opened UsbTree
  import opened SerialPorts

  /** The dictionary `detect_arduino_devices` returns. */
  datatype Detection = Detection(
    serialPorts: seq<string>,
    usbDevices: seq<DeviceInfo>,
    totalDevices: int)

  /**
    `detect_arduino_devices`, given the filesystem lookup of one pattern and
    the decoded `system_profiler` output (`None` when it could not be
    produced). The device count is the number of distinct serial ports and
    does not depend on the USB records.
   */
  method DetectArduinoDevices(glob: string -> seq<string>, decoded: Option<UsbData>) returns (d: Detection)
    ensures StrictlyAscending(d.serialPorts) && Elements(d.serialPorts) == Matched(glob)
    ensures d.usbDevices == UsbDevices(decoded)
    ensures d.totalDevices == |d.serialPorts| == |Matched(glob)|
  {
    var serialPorts := GetSerialPorts(glob);
    var usbDevices := GetUsbDeviceInfo(decoded);
    AscendingCard(serialPorts);
    d := Detection(serialPorts, usbDevices, |serialPorts|);
  }

  /** What the report lists: nothing at all, or the ports, the USB records and the ports suggested for the IDE. */
  datatype Report =
    | NoDevicesFound
    | DevicesFound(total: int, serialPorts: seq<string>, usbDevices: seq<DeviceInfo>, idePorts: seq<string>)

  /** The `cu.` marker that the IDE suggestion looks for. */
  const CuMarker: string := "cu."

  /** The ports whose path contains `cu.`, in their order: a selection, each containing the marker. */
  function CuPorts(ports: seq<string>): (r: seq<string>)
    ensures |r| <= |ports|
    ensures forall i :: 0 <= i < |r| ==> Contains(r[i], CuMarker)
  {
    if ports == [] then []
    else
      var last := ports[|ports| - 1];
      CuPorts(ports[..|ports| - 1]) + (if Contains(last, CuMarker) then [last] else [])
  }

  /** A port is suggested iff it is listed and contains `cu.`. */
  lemma {:induction false} CuPortsMembers(ports: seq<string>, p: string)
    ensures p in CuPorts(ports) <==> p in ports && Contains(p, CuMarker)
  {
    if ports != [] {
      var init := ports[..|ports| - 1];
      CuPortsMembers(init, p);
      assert ports == init + [ports[|ports| - 1]];
    }
  }

  /** The suggestions keep the port list's ascending order. */
  lemma {:induction false} CuPortsAscending(ports: seq<string>)
    requires StrictlyAscending(ports)
    ensures StrictlyAscending(CuPorts(ports))
  {
    if ports != [] {
      var init := ports[..|ports| - 1];
      var last := ports[|ports| - 1];
      CuPortsAscending(init);
      var r := CuPorts(ports);
      if Contains(last, CuMarker) {
        forall i | 0 <= i < |r| - 1
          ensures Below(r[i], last)
        {
          assert r[i] in CuPorts(init);
          CuPortsMembers(init, r[i]);
          var k :| 0 <= k < |init| && init[k] == r[i];
        }
      }
    }
  }

  /**
    The selection made by `print_device_info`: when the device count is 0
    nothing but the "no devices" notice is shown; otherwise the ports, the
    USB records and the `cu.` ports for the IDE.
   */
  method DeviceReport(d: Detection) returns (r: Report)
    ensures r.NoDevicesFound? <==> d.totalDevices == 0
    ensures r.DevicesFound? ==>
      r.total == d.totalDevices && r.serialPorts == d.serialPorts && r.usbDevices == d.usbDevices
    ensures r.DevicesFound? ==> r.idePorts == CuPorts(d.serialPorts)
  {
    if d.totalDevices == 0 {
      return NoDevicesFound;
    }
    var idePorts: seq<string> := [];
    for i := 0 to |d.serialPorts|
      invariant idePorts == CuPorts(d.serialPorts[..i])
    {
      var port := d.serialPorts[i];
      assert d.serialPorts[..i + 1][..i] == d.serialPorts[..i];
      if Contains(port, CuMarker) {
        idePorts := idePorts + [port];
      }
    }
    assert d.serialPorts[..|d.serialPorts|] == d.serialPorts;
    r := DevicesFound(d.totalDevices, d.serialPorts, d.usbDevices, idePorts);
  }

  /**
    `main` without the console: detect, then report. The report is empty
    exactly when no pattern matched any path, whatever USB records exist;
    otherwise the IDE suggestions are exactly the matched `cu.` paths, in
    ascending order.
   */
  method DetectAndReport(glob: string -> seq<string>, decoded: Option<UsbData>) returns (r: Report)
    ensures r.NoDevicesFound? <==> Matched(glob) == {}
    ensures r.DevicesFound? ==> r.usbDevices == UsbDevices(decoded) && r.total == |Matched(glob)|
    ensures r.DevicesFound? ==> StrictlyAscending(r.serialPorts) && Elements(r.serialPorts) == Matched(glob)
    ensures r.DevicesFound? ==> StrictlyAscending(r.idePorts)
    ensures r.DevicesFound? ==> forall p :: p in r.idePorts <==> p in Matched(glob) && Contains(p, CuMarker)
  {
    var d := DetectArduinoDevices(glob, decoded);
    r := DeviceReport(d);
    if r.DevicesFound? {
      CuPortsAscending(d.serialPorts);
      forall p
        ensures p in r.idePorts <==> p in Matched(glob) && Contains(p, CuMarker)
      {
        CuPortsMembers(d.serialPorts, p);
      }
    }
  }
}
