# Arduino device detector — verified model

`arduino_detector.py` is a macOS command-line tool. It finds the serial
device files an Arduino board (or a clone with a CH340, FTDI, CP210x or
PL2303 USB-serial chip) shows up as. It also lists matching USB devices from
the `system_profiler SPUSBDataType -json` device tree, and prints a report.

This project models the logic of that tool in Dafny and proves properties
of it:

- `Text` (`text.dfy`): Python's string operations the tool relies on.
  These are `str.lower`, the substring test `p in s`, and the string order
  `sorted` uses (lexicographic by code point). Each comes with its lemmas:
  a position-based characterisation of `in`, and the fact that `<` on
  strings is a strict total order.
- `UsbTree` (`usb_tree.dfy`): the USB-tree classifier. The decoded JSON tree
  is an input datatype. A `Node` has a map of string fields and an `_items`
  key that is `Absent` or `Present` with a list of children. The recursive
  search that appends to a shared list is the class `DeviceCollector`, whose
  `devices` field is that list. `SearchUsbTree` is proved against the
  specification function `Reported`. `Reported` is then proved equal to an
  independent description: list all nodes in pre-order, keep the matching
  ones, build their records. Membership, order and the count bound follow
  from that equality. The bus loop of `get_usb_device_info` is
  `GetUsbDeviceInfo`.
- `SerialPorts` (`serial_ports.dfy`): merging the per-pattern match lists,
  then `sorted(list(set(...)))`. The filesystem lookup `glob` is a function
  parameter. The result is proved strictly ascending, and its element set is
  proved to be exactly the union of the matches. A strictly ascending list
  is proved to be determined by its elements, and its length equals the
  number of distinct elements.
- `Detector` (`detector.dfy`): the result dictionary of
  `detect_arduino_devices` (`total_devices` is the number of distinct
  ports), and what `print_device_info` chooses to show. The count 0 takes
  the early exit. Otherwise the IDE suggestions are the ports containing
  `cu.`, in sorted order.
- `Wrappers` (`wrappers.dfy`): `Option`, standing for Python's `None`.

What the model shows about the classifier:

- A node is reported iff its lower-cased `vendor_id` is a key of the vendor
  table, or its lower-cased `_name` contains one of the marker substrings.
- The `usb2.0-serial` marker is redundant, because every such name also
  contains `serial`.
- A node without `vendor_id` and `_name` is never reported.
- `_items` lists are always searched, whether or not the parent matched.
- Bus entries are never classified themselves.
- `parent_info` has no effect on the result.
- The lower-cased `product_id` is computed but never used, so the product
  id has no effect on classification.

## Model

| member | source | states |
|---|---|---|
| `Text.Lower` | arduino_detector.py:74-76 | `str.lower` on ASCII letters; the result has the same length as its argument |
| `Text.LowerSpec` | arduino_detector.py:74-76 | lower-casing turns each letter `A`-`Z` into its own lower-case letter, leaves no upper-case letter and changes no other character |
| `Text.LowerIdempotent` | arduino_detector.py:74-76 | lower-casing an already lower-cased string changes nothing |
| `Text.Contains` | arduino_detector.py:81-85 | the substring test `p in s`: the empty string is in every string, and a longer string is in no shorter one |
| `Text.ContainsIffOccurs` | arduino_detector.py:81-85 | the substring test `p in s` holds iff `p` occurs at some position of `s` |
| `Text.ContainsSuffix` | arduino_detector.py:82-85 | a string containing `u + v` also contains `v` |
| `Text.NotInEmpty` | arduino_detector.py:74-76 | no non-empty marker occurs in the empty string that a missing field defaults to |
| `Text.Below` | arduino_detector.py:51 | Python's `<` on strings: of a string and one it is a prefix of, the shorter sorts first (so no string sorts before itself) |
| `Text.BelowFirstDifference` | arduino_detector.py:51 | otherwise the first position where the two strings differ decides: the one with the smaller code point there sorts first |
| `Text.BelowIrreflexive` | arduino_detector.py:51 | no string sorts before itself |
| `Text.BelowTransitive` | arduino_detector.py:51 | the string order used by `sorted` is transitive |
| `Text.BelowTotal` | arduino_detector.py:51 | two strings are different iff one sorts before the other, and never both ways |
| `UsbTree.UsbSerialMarkerRedundant` | arduino_detector.py:79-86 | the `is_arduino` test is unchanged when the `usb2.0-serial` disjunct is removed |
| `UsbTree.Get` | arduino_detector.py:74-97 | `item.get(key, default)`: the default when the key is absent, and otherwise one of the object's own values |
| `UsbTree.VendorKey` | arduino_detector.py:74 | `item.get('vendor_id', '').lower()`: already lower-case (lower-casing it again changes nothing), `''` when the key is absent |
| `UsbTree.NameKey` | arduino_detector.py:76 | `item.get('_name', '').lower()`: already lower-case, `''` when the key is absent |
| `UsbTree.IsArduino` | arduino_detector.py:74-86 | the `is_arduino` test on the lower-cased `vendor_id` and `_name`; a node with neither key is never reported |
| `UsbTree.Record` | arduino_detector.py:89-98 | the `device_info` record; its manufacturer is one of the vendor table's chip makers or `Unknown`, and a known manufacturer means the node is reported |
| `UsbTree.ManufacturerKnownIffListedVendor` | arduino_detector.py:18-24 | a record's manufacturer is other than `Unknown` iff the lower-cased vendor id is a key of the vendor table, and then it is that key's entry |
| `UsbTree.RecordCopiesFields` | arduino_detector.py:89-98 | each of the seven copied record fields holds the node's own value, in its original case, or `Unknown` when the key is absent |
| `UsbTree.UpperCaseVendorIdMatches` | arduino_detector.py:74-96 | vendor id `0X1A86` matches the table case-insensitively, gives manufacturer `CH340/CH341`, and is recorded as `0X1A86` |
| `UsbTree.Reported` | arduino_detector.py:70-103 | what `search_usb_tree` appends for a list of nodes; never more records than nodes in the searched tree |
| `UsbTree.ReportedFrom` | arduino_detector.py:72-103 | what one loop iteration appends for one node (its record if it matches, then its `_items`); never more records than nodes in its subtree |
| `UsbTree.ReportedAppend` | arduino_detector.py:72-103 | searching two sibling lists gives the first list's records followed by the second's |
| `UsbTree.ReportedIsFilterMap` | arduino_detector.py:70-103 | the search result equals the records of the matching nodes of the pre-order listing of the tree, in that order |
| `UsbTree.ReportedFromIsFilterMap` | arduino_detector.py:88-103 | for one node: its own record first (if it matches), then its subtree's, which is the pre-order filter-and-map |
| `UsbTree.ReportedIff` | arduino_detector.py:79-99 | a record is reported iff it is the record of some matching node of the tree |
| `UsbTree.DescendantAlwaysSearched` | arduino_detector.py:101-103 | a matching child is reported under its parent, whether or not the parent matched |
| `UsbTree.DeviceCollector.constructor` | arduino_detector.py:68 | the shared device list starts empty |
| `UsbTree.DeviceCollector.SearchUsbTree` | arduino_detector.py:70-103 | the walk appends exactly the records of the searched tree, in pre-order, to the shared list; `parentInfo` plays no part |
| `UsbTree.Buses` | arduino_detector.py:106 | `usb_data.get('SPUSBDataType', [])`: the bus list, or `[]` when the key is absent |
| `UsbTree.BusItems` | arduino_detector.py:106-108 | the objects the bus loop hands to the search: exactly the `_items` members of some bus, bus by bus |
| `UsbTree.GetUsbDeviceInfo` | arduino_detector.py:105-114 | the result is the search over the `_items` of every bus, bus by bus; it is empty when no decoded output is available |
| `UsbTree.UsbDevices` | arduino_detector.py:105-114 | what `get_usb_device_info` returns: empty when no decoded output is available, otherwise never more records than nodes below the buses, the buses not counted |
| `UsbTree.UsbDevicesFromBelowBuses` | arduino_detector.py:105-108 | every returned record comes from a matching node strictly below some bus |
| `UsbTree.BusWithoutItemsIgnored` | arduino_detector.py:106-108 | removing a bus that has no `_items` leaves the searched nodes unchanged |
| `UsbTree.BusNotClassified` | arduino_detector.py:106-108 | a lone bus with no matching node below it, with or without `_items`, yields no record, even if its own name or vendor id would match |
| `SerialPorts.Elements` | arduino_detector.py:51 | `set(xs)`: every entry of the list is in the set, and nothing else is |
| `SerialPorts.Matched` | arduino_detector.py:48-49 | the paths matched by any of the six patterns; empty iff every pattern matched nothing |
| `SerialPorts.Insert` | arduino_detector.py:51 | inserting into an ascending list keeps it strictly ascending and adds exactly the new element |
| `SerialPorts.SortedSet` | arduino_detector.py:51 | `sorted(list(set(xs)))` is strictly ascending and has exactly the elements of `xs` |
| `SerialPorts.AscendingUnique` | arduino_detector.py:51 | two strictly ascending lists with the same elements are equal, so the port list depends only on the set of matched paths |
| `SerialPorts.AscendingCard` | arduino_detector.py:51 | a strictly ascending list is as long as its set of elements (it has no duplicates) |
| `SerialPorts.GetSerialPorts` | arduino_detector.py:36-51 | the returned port list is strictly ascending, and its elements are exactly the paths matched by any of the six patterns |
| `Detector.DetectArduinoDevices` | arduino_detector.py:123-133 | `total_devices` equals the number of serial ports, which is the number of distinct matched paths, whatever the USB records are |
| `Detector.CuPorts` | arduino_detector.py:173-175 | the ports the IDE hint lists: no more than the ports, each containing `cu.` |
| `Detector.CuPortsMembers` | arduino_detector.py:173-175 | a port is suggested for the IDE iff it is listed and its path contains `cu.` |
| `Detector.CuPortsAscending` | arduino_detector.py:173-175 | the IDE suggestions keep the ascending order of the port list |
| `Detector.DeviceReport` | arduino_detector.py:141-175 | a device count of 0 shows only the "no devices" notice (no ports, no records); any other count lists the ports, the USB records and the `cu.` ports |
| `Detector.DetectAndReport` | arduino_detector.py:182-184 | the report is empty iff no pattern matched any path, whatever USB records exist; otherwise the IDE suggestions are exactly the matched `cu.` paths, in ascending order |

## Left out

- Text.LowerSpec: lower-casing (`Text.Lower`) covers only the ASCII letters `A`-`Z`. Python's `str.lower` also maps other Unicode letters, some to two characters. The vendor table and markers are ASCII, but a name with other letters could compare differently. Within ASCII the contract is complete: it gives the image of every character.
- Filesystem lookups (`glob.glob`) are I/O. The per-pattern match list is the function parameter `glob`. Wildcard matching and the order `glob` returns paths in are not modelled; the result provably does not depend on that order.
- Running `system_profiler` and decoding its JSON (`json.loads`) are an external process and a library parser. The decoded tree is an input. The input `None` stands for the failures the `except` clause catches: a non-zero exit status (`CalledProcessError`) and undecodable JSON (`JSONDecodeError`). Either gives the empty list. The error message printed there is not modelled.
- Failures the `except` clause does not catch are not modelled: `system_profiler` missing or not startable (`FileNotFoundError`/`OSError`), output that is not valid text (`UnicodeDecodeError`), and JSON of other shapes. On these the program stops with an uncaught exception, while the model always returns a list.
- JSON of other shapes: the model keeps a node's `_items` apart from its string fields, so a field that is not a string cannot be written. A `fields` map with an `_items` entry (say, `_items` given as a string) can be written; the model treats that entry as an ordinary field and the node as having no children. The program would instead iterate over that value and stop with an uncaught `AttributeError`.
- The `KeyError` in the `except` clause cannot arise from the modelled traversal, which only reads keys it has checked.
- Console output is not modelled: banners, emoji, numbering, field labels, and the "Serial Number" line that is hidden when the value is `Unknown`. Only the choice of what is shown is modelled.
- `ArduinoDetector.__init__` does nothing and has no counterpart.
- The firmware command console (line accumulation, command parsing, dispatch, peripheral validation, output routing) is not part of this model: none of its source is among the files modelled.
