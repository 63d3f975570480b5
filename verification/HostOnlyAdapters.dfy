/** Reading VirtualBox's list of host-only adapters: key/value lines are folded into records,
    each completed by its network name. */
module HostOnlyAdapters {
  import opened Wrappers

  datatype Key =
    | Name | GUID | DHCP | IPAddress | NetworkMask | HardwareAddress | MediumType | Status | VBoxNetworkName
    | Unknown(text: string)

  datatype Line = Line(key: Key, val: string)

  /** `ip` is the printed form of the parsed address, empty if there is none. */
  datatype Adapter = Adapter(
    name: string, guid: string, dhcp: bool, ip: string, mask: string, mac: string, medium: string,
    status: string, networkName: string)

  const Blank := Adapter("", "", false, "", "", "", "", "", "")

  /** net.ParseIP, parseIPv4Mask and net.ParseMAC */
  datatype Library = Library(parseIP: string -> string, parseMask: string -> string, parseMAC: string -> Option<string>)

  predicate Readable(lib: Library, line: Line) { line.key.HardwareAddress? ==> lib.parseMAC(line.val).Some? }

  function Update(lib: Library, n: Adapter, line: Line): Adapter
    requires Readable(lib, line)
  {
    match line.key
    case Name => n.(name := line.val)
    case GUID => n.(guid := line.val)
    case DHCP => n.(dhcp := line.val != "Disabled")
    case IPAddress => n.(ip := lib.parseIP(line.val))
    case NetworkMask => n.(mask := lib.parseMask(line.val))
    case HardwareAddress => n.(mac := lib.parseMAC(line.val).value)
    case MediumType => n.(medium := line.val)
    case Status => n.(status := line.val)
    case VBoxNetworkName => n.(networkName := line.val)
    case Unknown(_) => n
  }

  /** The records completed by the lines, the current one being `n`; `ok` if every line can be read. */
  datatype Scanned = Scanned(records: seq<Adapter>, ok: bool)

  function Scan(lib: Library, lines: seq<Line>, n: Adapter): Scanned
    decreases |lines|
  {
    if lines == [] then Scanned([], true)
    else if !Readable(lib, lines[0]) then Scanned([], false)
    else
      var n := Update(lib, n, lines[0]);
      if lines[0].key.VBoxNetworkName?
      then var rest := Scan(lib, lines[1..], Blank); Scanned([n] + rest.records, rest.ok)
      else Scan(lib, lines[1..], n)
  }

  /** The records `rs` and what scanning adds to them. */
  function Total(lib: Library, rs: seq<Adapter>, lines: seq<Line>, n: Adapter): Scanned {
    var rest := Scan(lib, lines, n);
    Scanned(rs + rest.records, rest.ok)
  }

  /** Scanning one line keeps the total. */
  lemma ScanAt(lib: Library, rs: seq<Adapter>, lines: seq<Line>, i: nat, n: Adapter)
    requires i < |lines| && Readable(lib, lines[i])
    ensures var m := Update(lib, n, lines[i]);
            Total(lib, rs, lines[i..], n) ==
            if lines[i].key.VBoxNetworkName? then Total(lib, rs + [m], lines[i + 1..], Blank)
            else Total(lib, rs, lines[i + 1..], m)
  {
    assert lines[i..][0] == lines[i] && lines[i..][1..] == lines[i + 1..];
  }

  predicate Clash(a: Adapter, b: Adapter) { a.networkName == b.networkName || (a.ip != "" && a.ip == b.ip) }

  predicate NoClash(rs: seq<Adapter>) { forall i, j :: 0 <= i < j < |rs| ==> !Clash(rs[i], rs[j]) }

  datatype Result = Adapters(byName: map<string, Adapter>) | Error

  ghost predicate IsIndex(byName: map<string, Adapter>, rs: seq<Adapter>) {
    && (forall k :: k in byName <==> exists i :: 0 <= i < |rs| && rs[i].networkName == k)
    && (forall i :: 0 <= i < |rs| ==> rs[i].networkName in byName && byName[rs[i].networkName] == rs[i])
  }

  ghost predicate KnowsIPs(byIP: set<string>, rs: seq<Adapter>) {
    forall k :: k in byIP <==> k != "" && exists i :: 0 <= i < |rs| && rs[i].ip == k
  }

  /** The maps of the callback hold the records `rs`, no two of which clash. */
  ghost predicate Holds(byName: map<string, Adapter>, byIP: set<string>, rs: seq<Adapter>) {
    NoClash(rs) && IsIndex(byName, rs) && KnowsIPs(byIP, rs)
  }

  /** The case of the callback that completes a record. */
  method Complete(n: Adapter, byName: map<string, Adapter>, byIP: set<string>, ghost rs: seq<Adapter>)
      returns (ok: bool, byName': map<string, Adapter>, byIP': set<string>)
    requires Holds(byName, byIP, rs)
    ensures ok <==> NoClash(rs + [n])
    ensures ok ==> Holds(byName', byIP', rs + [n])
  {
    byName', byIP' := byName, byIP;
    ghost var all := rs + [n];
    assert all[|rs|] == n && forall i :: 0 <= i < |rs| ==> all[i] == rs[i];
    if n.networkName in byName {
      ghost var i :| 0 <= i < |rs| && rs[i].networkName == n.networkName;
      assert Clash(all[i], all[|rs|]);
      return false, byName', byIP';
    }
    byName' := byName[n.networkName := n];
    if n.ip != "" {
      if n.ip in byIP {
        ghost var i :| 0 <= i < |rs| && rs[i].ip == n.ip;
        assert Clash(all[i], all[|rs|]);
        return false, byName', byIP';
      }
      byIP' := byIP + {n.ip};
    }
    ok := true;
    forall i | 0 <= i < |rs| ensures !Clash(rs[i], n) { assert rs[i].networkName in byName; }
    forall k ensures k in byIP' <==> k != "" && exists i :: 0 <= i < |all| && all[i].ip == k {
      if k in byIP { var i :| 0 <= i < |rs| && rs[i].ip == k; assert all[i].ip == k; }
    }
    forall k ensures k in byName' <==> exists i :: 0 <= i < |all| && all[i].networkName == k {
      if k in byName { var i :| 0 <= i < |rs| && rs[i].networkName == k; assert all[i].networkName == k; }
    }
  }

  /** The records completed by the time a line has been taken in. */
  function Grown(lib: Library, line: Line, n: Adapter, rs: seq<Adapter>): seq<Adapter>
    requires Readable(lib, line)
  {
    if line.key.VBoxNetworkName? then rs + [Update(lib, n, line)] else rs
  }

  /** The callback, at a line it can read. */
  method Take(lib: Library, line: Line, n: Adapter, byName: map<string, Adapter>, byIP: set<string>,
              ghost rs: seq<Adapter>)
      returns (ok: bool, n': Adapter, byName': map<string, Adapter>, byIP': set<string>)
    requires Readable(lib, line) && Holds(byName, byIP, rs)
    ensures n' == if line.key.VBoxNetworkName? then Blank else Update(lib, n, line)
    ensures ok <==> NoClash(Grown(lib, line, n, rs))
    ensures ok ==> Holds(byName', byIP', Grown(lib, line, n, rs))
  {
    n' := Update(lib, n, line);
    ok, byName', byIP' := true, byName, byIP;
    if line.key.VBoxNetworkName? {
      ok, byName', byIP' := Complete(n', byName, byIP, rs);
      n' := Blank;
    }
  }

  /** listHostOnlyAdapters */
  method ListHostOnlyAdapters(lib: Library, lines: seq<Line>) returns (r: Result)
    ensures r.Adapters? <==> Scan(lib, lines, Blank).ok && NoClash(Scan(lib, lines, Blank).records)
    ensures r.Adapters? ==> IsIndex(r.byName, Scan(lib, lines, Blank).records)
  {
    var byName: map<string, Adapter>, byIP: set<string> := map[], {};
    var n := Blank;
    ghost var done: seq<Adapter> := [];
    ghost var all := Scan(lib, lines, Blank);
    for i := 0 to |lines|
      invariant Holds(byName, byIP, done) && all == Total(lib, done, lines[i..], n)
    {
      if !Readable(lib, lines[i]) { return Error; }
      ScanAt(lib, done, lines, i, n);
      var ok;
      ghost var grown := Grown(lib, lines[i], n, done);
      ok, n, byName, byIP := Take(lib, lines[i], n, byName, byIP, done);
      done := grown;
      if !ok {
        ClashStays(done, all.records);
        return Error;
      }
    }
    assert all.records == done;
    r := Adapters(byName);
  }

  lemma ClashStays(a: seq<Adapter>, b: seq<Adapter>)
    requires a <= b && !NoClash(a)
    ensures !NoClash(b)
  {
    var i, j :| 0 <= i < j < |a| && Clash(a[i], a[j]);
    assert Clash(b[i], b[j]);
  }

  // ----- what VirtualBox prints

  /** What is printed of one adapter: its network name, and before it any lines with other keys,
      known or not, in any order, with keys left out or repeated. */
  datatype Printed = Printed(lines: seq<Line>, networkName: string) {
    function Lines(): seq<Line> { lines + [Line(VBoxNetworkName, networkName)] }
  }

  predicate NoName(lines: seq<Line>) { forall i :: 0 <= i < |lines| ==> !lines[i].key.VBoxNetworkName? }

  function PrintAll(ps: seq<Printed>): seq<Line> {
    if ps == [] then [] else ps[0].Lines() + PrintAll(ps[1..])
  }

  predicate Proper(ps: seq<Printed>) { forall i :: 0 <= i < |ps| ==> NoName(ps[i].lines) }

  /** Every output is the print of some adapters, perhaps followed by lines without a name. */
  lemma {:induction false} EveryOutputIsPrinted(lines: seq<Line>) returns (ps: seq<Printed>, tail: seq<Line>)
    ensures Proper(ps) && NoName(tail) && lines == PrintAll(ps) + tail
    decreases |lines|
  {
    if lines == [] {
      return [], [];
    }
    ps, tail := EveryOutputIsPrinted(lines[1..]);
    assert lines == [lines[0]] + lines[1..];
    if lines[0].key.VBoxNetworkName? {
      var p := Printed([], lines[0].val);
      assert p.Lines() == [lines[0]];
      ps := [p] + ps;
    } else if ps == [] {
      tail := [lines[0]] + tail;
    } else {
      var p := ps[0].(lines := [lines[0]] + ps[0].lines);
      assert p.Lines() == [lines[0]] + ps[0].Lines();
      ps := [p] + ps[1..];
    }
  }

  // ----- what an adapter's lines say

  predicate AllReadable(lib: Library, lines: seq<Line>) { forall i :: 0 <= i < |lines| ==> Readable(lib, lines[i]) }

  /** The value on the last line with key `k`. */
  function LastOf(lines: seq<Line>, k: Key): Option<string> {
    if lines == [] then None
    else if lines[|lines| - 1].key == k then Some(lines[|lines| - 1].val)
    else LastOf(lines[..|lines| - 1], k)
  }

  function Text(lines: seq<Line>, k: Key): string { LastOf(lines, k).GetOr("") }

  /** The record: for each key the last line counts, and one that is left out leaves its field
      blank. */
  function Record(lib: Library, lines: seq<Line>, networkName: string): Adapter
    requires AllReadable(lib, lines)
  {
    var mac := LastOf(lines, HardwareAddress);
    Adapter(
      Text(lines, Name), Text(lines, GUID),
      LastOf(lines, DHCP).Some? && LastOf(lines, DHCP).value != "Disabled",
      if LastOf(lines, IPAddress).Some? then lib.parseIP(LastOf(lines, IPAddress).value) else "",
      if LastOf(lines, NetworkMask).Some? then lib.parseMask(LastOf(lines, NetworkMask).value) else "",
      if mac.Some? then LastIsReadable(lib, lines); lib.parseMAC(mac.value).value else "",
      Text(lines, MediumType), Text(lines, Status), networkName)
  }

  lemma {:induction false} LastIsReadable(lib: Library, lines: seq<Line>)
    requires AllReadable(lib, lines)
    ensures var mac := LastOf(lines, HardwareAddress); mac.Some? ==> lib.parseMAC(mac.value).Some?
  {
    if lines != [] {
      var n := |lines| - 1;
      assert Readable(lib, lines[n]);
      assert AllReadable(lib, lines[..n]) by { assert forall i :: 0 <= i < n ==> lines[..n][i] == lines[i]; }
      LastIsReadable(lib, lines[..n]);
    }
  }

  /** The lines taken in one by one. */
  function Fold(lib: Library, lines: seq<Line>): Adapter
    requires AllReadable(lib, lines)
  {
    if lines == [] then Blank
    else Update(lib, Fold(lib, lines[..|lines| - 1]), lines[|lines| - 1])
  }

  lemma LastOneMore(lines: seq<Line>, k: Key)
    requires lines != []
    ensures var n := |lines| - 1;
            LastOf(lines, k) == if lines[n].key == k then Some(lines[n].val) else LastOf(lines[..n], k)
  {
  }

  lemma RecordOneMore(lib: Library, lines: seq<Line>)
    requires lines != [] && AllReadable(lib, lines) && !lines[|lines| - 1].key.VBoxNetworkName?
    ensures var n := |lines| - 1;
            Record(lib, lines, "") == Update(lib, Record(lib, lines[..n], ""), lines[n])
  {
    LastOneMore(lines, Name);
    LastOneMore(lines, GUID);
    LastOneMore(lines, DHCP);
    LastOneMore(lines, IPAddress);
    LastOneMore(lines, NetworkMask);
    LastOneMore(lines, HardwareAddress);
    LastOneMore(lines, MediumType);
    LastOneMore(lines, Status);
  }

  lemma {:induction false} FoldIsRecord(lib: Library, lines: seq<Line>)
    requires AllReadable(lib, lines) && NoName(lines)
    ensures Fold(lib, lines) == Record(lib, lines, "")
  {
    if lines != [] {
      FoldIsRecord(lib, lines[..|lines| - 1]);
      RecordOneMore(lib, lines);
    }
  }

  lemma FoldOneMore(lib: Library, lines: seq<Line>, line: Line)
    requires AllReadable(lib, lines) && Readable(lib, line)
    ensures AllReadable(lib, lines + [line])
    ensures Fold(lib, lines + [line]) == Update(lib, Fold(lib, lines), line)
  {
    var all := lines + [line];
    assert all[..|all| - 1] == lines && all[|all| - 1] == line;
  }

  // ----- the scan of a print

  lemma ScanLine(lib: Library, line: Line, rest: seq<Line>, n: Adapter)
    requires Readable(lib, line) && !line.key.VBoxNetworkName?
    ensures Scan(lib, [line] + rest, n) == Scan(lib, rest, Update(lib, n, line))
  {
    assert ([line] + rest)[1..] == rest;
  }

  lemma AllReadableConcat(lib: Library, a: seq<Line>, b: seq<Line>)
    ensures AllReadable(lib, a + b) <==> AllReadable(lib, a) && AllReadable(lib, b)
  {
    if AllReadable(lib, a + b) {
      forall i | 0 <= i < |a| ensures Readable(lib, a[i]) { assert (a + b)[i] == a[i]; }
      forall i | 0 <= i < |b| ensures Readable(lib, b[i]) { assert (a + b)[|a| + i] == b[i]; }
    }
  }

  /** Lines that complete no record are taken in if all can be read. */
  lemma {:induction false} ScanLines(lib: Library, before: seq<Line>, lines: seq<Line>, rest: seq<Line>)
    requires AllReadable(lib, before) && AllReadable(lib, lines) && NoName(lines)
    ensures AllReadable(lib, before + lines)
    ensures Scan(lib, lines + rest, Fold(lib, before)) == Scan(lib, rest, Fold(lib, before + lines))
    decreases |lines|
  {
    if lines == [] {
      assert before + lines == before && lines + rest == rest;
    } else {
      var line, later := lines[0], lines[1..];
      FoldOneMore(lib, before, line);
      ScanLine(lib, line, later + rest, Fold(lib, before));
      ScanLines(lib, before + [line], later, rest);
      assert lines + rest == [line] + (later + rest);
      assert before + [line] + later == before + lines;
    }
  }

  /** The first line that cannot be read ends the scan. */
  lemma {:induction false} ScanStops(lib: Library, lines: seq<Line>, rest: seq<Line>, n: Adapter)
    requires NoName(lines) && !AllReadable(lib, lines)
    ensures Scan(lib, lines + rest, n) == Scanned([], false)
    decreases |lines|
  {
    var line, later := lines[0], lines[1..];
    assert lines + rest == [line] + (later + rest);
    if Readable(lib, line) {
      ScanLine(lib, line, later + rest, n);
      assert lines == [line] + later;
      AllReadableConcat(lib, [line], later);
      ScanStops(lib, later, rest, Update(lib, n, line));
    } else {
      assert (lines + rest)[0] == line;
    }
  }

  function Taken(lib: Library, p: Printed): Adapter
    requires AllReadable(lib, p.lines)
  {
    Fold(lib, p.lines).(networkName := p.networkName)
  }

  lemma ScanName(lib: Library, name: string, rest: seq<Line>, n: Adapter)
    ensures var after := Scan(lib, rest, Blank);
            Scan(lib, [Line(VBoxNetworkName, name)] + rest, n) ==
            Scanned([n.(networkName := name)] + after.records, after.ok)
  {
    assert ([Line(VBoxNetworkName, name)] + rest)[1..] == rest;
  }

  lemma ScanPrinted(lib: Library, p: Printed, rest: seq<Line>)
    requires NoName(p.lines)
    ensures Scan(lib, p.Lines() + rest, Blank) ==
            var after := Scan(lib, rest, Blank);
            if AllReadable(lib, p.lines) then Scanned([Taken(lib, p)] + after.records, after.ok) else Scanned([], false)
  {
    var more := [Line(VBoxNetworkName, p.networkName)] + rest;
    assert p.Lines() + rest == p.lines + more;
    if AllReadable(lib, p.lines) {
      ScanLines(lib, [], p.lines, more);
      assert [] + p.lines == p.lines;
      ScanName(lib, p.networkName, rest, Fold(lib, p.lines));
    } else {
      ScanStops(lib, p.lines, more, Blank);
    }
  }

  predicate PrintIsReadable(lib: Library, ps: seq<Printed>, tail: seq<Line>) {
    (forall i :: 0 <= i < |ps| ==> AllReadable(lib, ps[i].lines)) && AllReadable(lib, tail)
  }

  function Records(lib: Library, ps: seq<Printed>): seq<Adapter>
    requires forall i :: 0 <= i < |ps| ==> AllReadable(lib, ps[i].lines)
  {
    seq(|ps|, i requires 0 <= i < |ps| => Taken(lib, ps[i]))
  }

  /** Every print is scanned back, record by record, if and only if every line can be read. */
  lemma {:induction false} PrintedIsScanned(lib: Library, ps: seq<Printed>, tail: seq<Line>)
    requires Proper(ps) && NoName(tail)
    ensures Scan(lib, PrintAll(ps) + tail, Blank).ok <==> PrintIsReadable(lib, ps, tail)
    ensures PrintIsReadable(lib, ps, tail) ==> Scan(lib, PrintAll(ps) + tail, Blank) == Scanned(Records(lib, ps), true)
  {
    if ps == [] {
      assert PrintAll(ps) + tail == tail == tail + [] == [] + tail;
      if AllReadable(lib, tail) { ScanLines(lib, [], tail, []); } else { ScanStops(lib, tail, [], Blank); }
    } else {
      var rest := PrintAll(ps[1..]) + tail;
      assert PrintAll(ps) + tail == ps[0].Lines() + rest;
      ScanPrinted(lib, ps[0], rest);
      PrintedIsScanned(lib, ps[1..], tail);
      PrintIsReadableCons(lib, ps, tail);
      if PrintIsReadable(lib, ps, tail) {
        assert Records(lib, ps) == [Taken(lib, ps[0])] + Records(lib, ps[1..]);
      }
    }
  }

  lemma PrintIsReadableCons(lib: Library, ps: seq<Printed>, tail: seq<Line>)
    requires ps != []
    ensures PrintIsReadable(lib, ps, tail) <==> AllReadable(lib, ps[0].lines) && PrintIsReadable(lib, ps[1..], tail)
  {
    if AllReadable(lib, ps[0].lines) && PrintIsReadable(lib, ps[1..], tail) {
      forall i | 0 <= i < |ps| ensures AllReadable(lib, ps[i].lines) {
        if i > 0 { assert ps[i] == ps[1..][i - 1]; }
      }
    }
    if PrintIsReadable(lib, ps, tail) {
      forall i | 0 <= i < |ps| - 1 ensures AllReadable(lib, ps[1..][i].lines) { assert ps[1..][i] == ps[i + 1]; }
    }
  }

  /** The address on the last line that has one, as far as it can be read. */
  function AddressOf(lib: Library, p: Printed): string {
    var ip := LastOf(p.lines, IPAddress);
    if ip.Some? then lib.parseIP(ip.value) else ""
  }

  /** Two printed adapters share a network name, or an address that can be read. */
  predicate Share(lib: Library, p: Printed, q: Printed) {
    p.networkName == q.networkName || (AddressOf(lib, p) != "" && AddressOf(lib, p) == AddressOf(lib, q))
  }

  /** What ListHostOnlyAdapters makes of any output: it fails exactly when a line cannot be read
      or two adapters share a network name or an address, and otherwise maps each network name,
      and nothing else, to its record. */
  lemma PrintedListIsRead(lib: Library, ps: seq<Printed>, tail: seq<Line>, byName: map<string, Adapter>)
    requires Proper(ps) && NoName(tail)
    ensures var s := Scan(lib, PrintAll(ps) + tail, Blank);
            && (s.ok && NoClash(s.records) <==>
                 && PrintIsReadable(lib, ps, tail)
                 && forall i, j :: 0 <= i < j < |ps| ==> !Share(lib, ps[i], ps[j]))
            && (s.ok && IsIndex(byName, s.records) ==>
                 && (forall i :: 0 <= i < |ps| ==>
                      && AllReadable(lib, ps[i].lines) && ps[i].networkName in byName
                      && byName[ps[i].networkName] == Record(lib, ps[i].lines, ps[i].networkName))
                 && (forall k :: k in byName ==> exists i :: 0 <= i < |ps| && ps[i].networkName == k))
  {
    PrintedIsScanned(lib, ps, tail);
    if PrintIsReadable(lib, ps, tail) {
      var rs := Records(lib, ps);
      NoClashIsNoShare(lib, ps);
      if IsIndex(byName, rs) {
        forall i | 0 <= i < |ps|
          ensures ps[i].networkName in byName
          ensures byName[ps[i].networkName] == Record(lib, ps[i].lines, ps[i].networkName)
        {
          assert rs[i].networkName == ps[i].networkName;
          FoldIsRecord(lib, ps[i].lines);
        }
        forall k | k in byName ensures exists i :: 0 <= i < |ps| && ps[i].networkName == k {
          var i :| 0 <= i < |rs| && rs[i].networkName == k;
          assert ps[i].networkName == k;
        }
      }
    }
  }

  lemma NoClashIsNoShare(lib: Library, ps: seq<Printed>)
    requires Proper(ps) && forall i :: 0 <= i < |ps| ==> AllReadable(lib, ps[i].lines)
    ensures NoClash(Records(lib, ps)) <==> forall i, j :: 0 <= i < j < |ps| ==> !Share(lib, ps[i], ps[j])
  {
    var rs := Records(lib, ps);
    forall i | 0 <= i < |ps| ensures rs[i].networkName == ps[i].networkName && rs[i].ip == AddressOf(lib, ps[i]) {
      FoldIsRecord(lib, ps[i].lines);
    }
    assert forall i, j :: 0 <= i < j < |ps| ==> (Clash(rs[i], rs[j]) <==> Share(lib, ps[i], ps[j]));
    if forall i, j :: 0 <= i < j < |ps| ==> !Share(lib, ps[i], ps[j]) {
      forall i, j | 0 <= i < j < |rs| ensures !Clash(rs[i], rs[j]) { assert !Share(lib, ps[i], ps[j]); }
    }
    if NoClash(rs) {
      forall i, j | 0 <= i < j < |ps| ensures !Share(lib, ps[i], ps[j]) { assert !Clash(rs[i], rs[j]); }
    }
  }
}
