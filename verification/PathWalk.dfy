/** The path walk of ext2_open_file: components looked up one by one, symbolic links spliced into
    the name in place. */
module PathWalk {
  import opened Bits
  import opened FileDirect
  import opened StrFcns

  const MAXPATHLEN: nat := 1024
  const MAXSYMLINKS: nat := 8
  const MAXNAMLEN: nat := 255
  const ROOTINO: nat := 2
  const SLASH: byte := 47

  type Name = seq<byte>

  /** A record of a directory. */
  datatype Entry = Entry(inode: nat, recLen: nat, name: Name)

  datatype Node = Dir(entries: seq<Entry>) | Link(text: Name) | Plain

  /** A device, and the file system on it when there is one. */
  datatype Device = NoFs | Fs(nodes: map<nat, Node>)

  type World = map<Name, Device>

  datatype Error =
    NoEntry | NotDirectory | NameTooLong | InvalidParameter | SymlinkLoop | NoDevice | InvalidFs | BadInode

  datatype Result = Opened(dev: Name, inode: nat) | OpenedDevice(dev: Name) | Fail(error: Error)

  function DevPrefix(): Name
  {
    [47, 100, 101, 118, 47]
  }

  // ----- what a path means -----

  /** The number of leading separators. */
  function Leading(p: Name): (k: nat)
    ensures k <= |p| && (p != [] && p[0] == SLASH ==> k > 0)
    ensures forall i :: 0 <= i < k ==> p[i] == SLASH
    ensures k < |p| ==> p[k] != SLASH
  {
    if p == [] || p[0] != SLASH then 0 else 1 + Leading(p[1..])
  }

  /** The path without leading separators. */
  function Skip(p: Name): Name
  {
    p[Leading(p)..]
  }

  /** The length of the first component. */
  function NameLen(p: Name): (k: nat)
    ensures k <= |p| && (p != [] && p[0] != SLASH ==> k > 0)
    ensures forall i :: 0 <= i < k ==> p[i] != SLASH
    ensures k < |p| ==> p[k] == SLASH
  {
    if p == [] || p[0] == SLASH then 0 else 1 + NameLen(p[1..])
  }

  datatype NameCheck = Good | Bad(error: Error)

  /** The first fault found in reading a component from position i on. */
  function Check(c: Name, i: nat): NameCheck
    requires i <= |c|
    decreases |c| - i
  {
    if i == |c| then Good
    else if i > MAXNAMLEN then Bad(NameTooLong)
    else if c[i] >= 128 then Bad(InvalidParameter)
    else Check(c, i + 1)
  }

  /** The limit is one late: a component is refused as too long exactly when it has more than
      MAXNAMLEN + 1 bytes, and no byte of those is outside ASCII. */
  lemma {:induction false} TooLongIff(c: Name, i: nat)
    requires i <= |c| && i <= MAXNAMLEN + 1
    ensures Check(c, i) == Bad(NameTooLong) <==> |c| > MAXNAMLEN + 1 && forall j :: i <= j <= MAXNAMLEN ==> c[j] < 128
    decreases |c| - i
  {
    if i < |c| && i <= MAXNAMLEN && c[i] < 128 { TooLongIff(c, i + 1); }
  }

  datatype Search = Missing | At(inode: nat)

  /** The first record in use with that name. */
  function Find(entries: seq<Entry>, name: Name): Search
  {
    if entries == [] then Missing
    else if entries[0].inode != 0 && entries[0].name == name then At(entries[0].inode)
    else Find(entries[1..], name)
  }

  predicate HasFs(w: World, dev: Name)
  {
    dev in w && w[dev].Fs?
  }

  /** Opening a path from an inode of a device, with so many links left to follow. */
  function Resolve(w: World, links: nat, dev: Name, ino: nat, path: Name): Result
    requires HasFs(w, dev) && ino in w[dev].nodes
    decreases links, 1, |path|
  {
    var nodes := w[dev].nodes;
    if path == [] then Opened(dev, ino)
    else if !nodes[ino].Dir? then Fail(NotDirectory)
    else
      var p := Skip(path);
      var k := NameLen(p);
      match Check(p[..k], 0)
      case Bad(e) => Fail(e)
      case Good =>
        match Find(nodes[ino].entries, p[..k])
        case Missing => Fail(NoEntry)
        case At(i) =>
          if i !in nodes then Fail(BadInode)
          else if !nodes[i].Link? then Resolve(w, links, dev, i, p[k..])
          else if |nodes[i].text| + |p[k..]| + 1 >= MAXPATHLEN - 1 then Fail(NameTooLong)
          else if links == 0 then Fail(SymlinkLoop)
          else Restart(w, links - 1, dev, ino, nodes[i].text + p[k..])
  }

  /** A path that starts with the text of a link: relative to the directory of the link, to the
      root, or to the root of a device. */
  function Restart(w: World, links: nat, dev: Name, ino: nat, path: Name): Result
    requires HasFs(w, dev) && ino in w[dev].nodes
    decreases links, 3
  {
    if path == [] || path[0] != SLASH then Resolve(w, links, dev, ino, path)
    else if DevPrefix() <= path then OpenDevice(w, links, path[5..])
    else if ROOTINO !in w[dev].nodes then Fail(BadInode)
    else Resolve(w, links, dev, ROOTINO, path)
  }

  /** A path that starts with the name of a device. */
  function OpenDevice(w: World, links: nat, path: Name): Result
    decreases links, 2
  {
    var k := NameLen(path);
    var dev := path[..k];
    if dev !in w then Fail(NoDevice)
    else if k == |path| then OpenedDevice(dev)
    else if !w[dev].Fs? then Fail(InvalidFs)
    else if ROOTINO !in w[dev].nodes then Fail(BadInode)
    else Resolve(w, links, dev, ROOTINO, path[k..])
  }

  function Open(w: World, path: Name): Result
  {
    if path == [] || !(DevPrefix() <= path) then Fail(NoEntry) else OpenDevice(w, MAXSYMLINKS, path[5..])
  }

  // ----- the code -----

  method Strlen(a: array<byte>, cp: nat, ghost end: nat) returns (n: nat)
    requires Str(a, cp, end)
    ensures n == end - cp
  {
    n := 0;
    while a[cp + n] != 0
      invariant cp + n <= end
      decreases end - n
    {
      n := n + 1;
    }
  }

  function Size(entries: seq<Entry>): nat
  {
    if entries == [] then 0 else entries[0].recLen + Size(entries[1..])
  }

  /** search_directory: it ends because every record has a positive length. */
  method SearchDirectory(entries: seq<Entry>, name: Name) returns (r: Search)
    requires forall i :: 0 <= i < |entries| ==> entries[i].recLen > 0
    ensures r == Find(entries, name)
  {
    var offset, i, size := 0, 0, Size(entries);
    while offset < size
      invariant 0 <= i <= |entries| && offset + Size(entries[i..]) == size
      invariant Find(entries, name) == Find(entries[i..], name)
      decreases size - offset
    {
      var e := entries[i];
      assert entries[i..][1..] == entries[i + 1..];
      if e.inode != 0 && e.name == name { return At(e.inode); }
      offset, i := offset + e.recLen, i + 1;
    }
    r := Missing;
  }

  /** Skipping separators. */
  method SkipSeparators(a: array<byte>, cp: nat, ghost end: nat) returns (from: nat)
    requires Str(a, cp, end)
    ensures cp <= from <= end && a[from..end] == Skip(a[cp..end])
  {
    hide Leading;
    ghost var s := a[cp..end];
    from := cp;
    while a[from] == SLASH
      invariant cp <= from <= cp + Leading(s)
      decreases end - from
    {
      InLeading(s, from - cp);
      from := from + 1;
    }
    if from < end { InLeading(s, from - cp); }
    assert a[from..end] == s[from - cp..];
  }

  lemma {:induction false} InLeading(s: Name, i: nat)
    requires i < |s| && i <= Leading(s)
    ensures s[i] != SLASH <==> i == Leading(s)
  {
  }

  /** Reading the next component, from the string s. */
  method Component(a: array<byte>, from: nat, ghost end: nat, ghost s: Name) returns (check: NameCheck, to: nat)
    requires Str(a, from, end) && s == a[from..end]
    ensures check == Check(s[..NameLen(s)], 0)
    ensures check == Good ==> to == from + NameLen(s)
  {
    to := from;
    ghost var n := NameLen(s);
    ghost var c := s[..n];
    while a[to] != 0 && a[to] != SLASH
      invariant from <= to <= from + n && Check(c, 0) == Check(c, to - from)
      decreases end - to
    {
      InComponent(s, to - from);
      if to - from > MAXNAMLEN { return Bad(NameTooLong), to; }
      if a[to] >= 128 { return Bad(InvalidParameter), to; }
      to := to + 1;
    }
    if to < end { InComponent(s, to - from); }
    check := Good;
  }

  /** Reading the name of a device. */
  method NameEnd(a: array<byte>, cp: nat, ghost end: nat, ghost s: Name) returns (to: nat)
    requires Str(a, cp, end) && s == a[cp..end]
    ensures to == cp + NameLen(s)
  {
    to := cp;
    while a[to] != 0 && a[to] != SLASH
      invariant cp <= to <= cp + NameLen(s)
      decreases end - to
    {
      InComponent(s, to - cp);
      to := to + 1;
    }
    if to < end { InComponent(s, to - cp); }
  }

  lemma {:induction false} InComponent(s: Name, i: nat)
    requires i < |s| && i <= NameLen(s)
    ensures s[i] == SLASH <==> i == NameLen(s)
  {
  }

  /** bcopy of the text of a link to the start of the buffer. */
  method CopyText(a: array<byte>, text: Name)
    requires |text| <= a.Length
    modifies a
    ensures a[..] == Splice(old(a[..]), 0, text)
  {
    ghost var s := a[..];
    var i := 0;
    while i < |text|
      invariant 0 <= i <= |text| && a[..i] == text[..i]
      invariant forall j :: i <= j < a.Length ==> a[j] == s[j]
    {
      a[i] := text[i];
      i := i + 1;
    }
    assert a[|text|..] == s[|text|..];
    assert a[..] == a[..|text|] + a[|text|..];
  }

  /** Putting the text of a link before the unread rest of the path, in place. */
  method SpliceLink(a: array<byte>, cp: nat, text: Name, ghost end: nat) returns (ghost end': nat)
    requires Str(a, cp, end) && |text| + (end - cp) + 1 < a.Length && 0 !in text
    modifies a
    ensures Str(a, 0, end') && a[..end'] == text + old(a[cp..end])
  {
    hide Splice;
    var n := Strlen(a, cp, end);
    ghost var s, rest := a[..], a[cp..cp + n + 1];
    Ovbcopy(a, cp, |text|, n + 1);
    SpliceLength(s, |text|, rest);
    CopyText(a, text);
    end' := |text| + n;
    Spliced(s, text, rest, a[..]);
    assert rest[..n] == old(a[cp..end]);
    IsStr(a, end', text, rest[..n]);
  }

  lemma {:induction false} SpliceLength(s: Name, at: nat, data: Name)
    requires at + |data| <= |s|
    ensures |Splice(s, at, data)| == |s|
  {
  }

  lemma {:induction false} IsStr(a: array<byte>, end: nat, x: Name, y: Name)
    requires end < a.Length && a[..end] == x + y && a[end] == 0 && 0 !in x && 0 !in y
    ensures Str(a, 0, end)
  {
    assert forall i :: 0 <= i < end ==> a[i] == (x + y)[i];
  }

  lemma {:induction false} Spliced(s: Name, text: Name, rest: Name, t: Name)
    requires |text| + |rest| <= |s| && |rest| > 0 && t == Splice(Splice(s, |text|, rest), 0, text)
    ensures |t| == |s| && t[..|text| + |rest| - 1] == text + rest[..|rest| - 1]
    ensures t[|text| + |rest| - 1] == rest[|rest| - 1]
  {
  }

  /** Records have positive lengths and the texts of links hold no zero byte. */
  predicate Sane(w: World)
  {
    forall d, i :: d in w && w[d].Fs? && i in w[d].nodes ==>
      match w[d].nodes[i]
      case Dir(es) => forall e :: e in es ==> e.recLen > 0
      case Link(text) => 0 !in text
      case Plain => true
  }

  /** Opening the device whose name is next in the path, and its root unless the path ends there. */
  method DeviceStep(w: World, a: array<byte>, cp: nat, ghost end: nat, ghost links: nat)
      returns (done: bool, r: Result, dev: Name, cp': nat)
    requires Str(a, cp, end)
    ensures done ==> r == OpenDevice(w, links, a[cp..end])
    ensures !done ==> cp <= cp' < end && HasFs(w, dev) && ROOTINO in w[dev].nodes
    ensures !done ==> OpenDevice(w, links, a[cp..end]) == Resolve(w, links, dev, ROOTINO, a[cp'..end])
  {
    hide Resolve, NameLen;
    ghost var s := a[cp..end];
    cp' := NameEnd(a, cp, end, s);
    dev := a[cp..cp'];
    assert dev == s[..NameLen(s)];
    assert a[cp'..end] == s[NameLen(s)..];
    if dev !in w { return true, Fail(NoDevice), dev, cp'; }
    if a[cp'] == 0 { return true, OpenedDevice(dev), dev, cp'; }
    if !w[dev].Fs? { return true, Fail(InvalidFs), dev, cp'; }
    if ROOTINO !in w[dev].nodes { return true, Fail(BadInode), dev, cp'; }
    done, r := false, OpenedDevice(dev);
  }

  /** Where the walk goes on after a link has been spliced in. */
  method AfterLink(w: World, a: array<byte>, ghost end: nat, dev: Name, ino: nat, ghost links: nat)
      returns (done: bool, r: Result, dev': Name, ino': nat, cp: nat)
    requires Str(a, 0, end) && HasFs(w, dev) && ino in w[dev].nodes
    ensures done ==> r == Restart(w, links, dev, ino, a[..end])
    ensures !done ==> cp <= end && HasFs(w, dev') && ino' in w[dev'].nodes
    ensures !done ==> Restart(w, links, dev, ino, a[..end]) == Resolve(w, links, dev', ino', a[cp..end])
  {
    hide Resolve, OpenDevice;
    done, r, dev', ino', cp := false, OpenedDevice(dev), dev, ino, 0;
    assert a[0..end] == a[..end];
    assert end > 0 ==> a[..end][0] == a[0];
    if a[0] != SLASH { return; }
    var isDev := StrPrefix(a, 0, DevPrefix(), end);
    if isDev {
      assert a[..end][5..] == a[5..end];
      done, r, dev', cp := DeviceStep(w, a, 5, end, links);
      ino' := ROOTINO;
    } else if ROOTINO !in w[dev].nodes {
      done, r := true, Fail(BadInode);
    } else {
      ino' := ROOTINO;
    }
  }

  /** One component of the path. */
  method Step(w: World, a: array<byte>, cp: nat, ghost end: nat, dev: Name, ino: nat, nlinks: nat)
      returns (done: bool, r: Result, cp': nat, ghost end': nat, dev': Name, ino': nat, nlinks': nat)
    requires Sane(w) && a.Length == MAXPATHLEN + 1 && Str(a, cp, end) && cp < end
    requires HasFs(w, dev) && ino in w[dev].nodes && nlinks <= MAXSYMLINKS
    modifies a
    ensures done ==> r == Resolve(w, MAXSYMLINKS - nlinks, dev, ino, old(a[cp..end]))
    ensures !done ==> Str(a, cp', end') && HasFs(w, dev') && ino' in w[dev'].nodes && nlinks' <= MAXSYMLINKS
    ensures !done ==> Resolve(w, MAXSYMLINKS - nlinks', dev', ino', a[cp'..end']) ==
                      Resolve(w, MAXSYMLINKS - nlinks, dev, ino, old(a[cp..end]))
    ensures !done ==> nlinks' > nlinks || (nlinks' == nlinks && end' - cp' < end - cp)
  {
    hide Restart, Check, Find, Skip, NameLen, Leading;
    ghost var path := a[cp..end];
    done, r, cp', end', dev', ino', nlinks' := true, Fail(NotDirectory), cp, end, dev, ino, nlinks;
    var nodes := w[dev].nodes;
    if !nodes[ino].Dir? { return; }
    var from := SkipSeparators(a, cp, end);
    ghost var p := Skip(path);
    var check, to := Component(a, from, end, p);
    if check.Bad? { r := Fail(check.error); return; }
    SkipFacts(path);
    var name := a[from..to];
    assert name == p[..NameLen(p)];
    assert a[to..end] == p[NameLen(p)..];
    var found := SearchDirectory(nodes[ino].entries, name);
    if found == Missing { r := Fail(NoEntry); return; }
    var i := found.inode;
    if i !in nodes { r := Fail(BadInode); return; }
    if nodes[i].Link? {
      var text := nodes[i].text;
      var len := Strlen(a, to, end);
      if |text| + len + 1 >= MAXPATHLEN - 1 { r := Fail(NameTooLong); return; }
      if nlinks + 1 > MAXSYMLINKS { r := Fail(SymlinkLoop); return; }
      nlinks' := nlinks + 1;
      end' := SpliceLink(a, to, text, end);
      done, r, dev', ino', cp' := AfterLink(w, a, end', dev, ino, MAXSYMLINKS - nlinks');
    } else {
      done, cp', ino' := false, to, i;
    }
  }

  lemma {:induction false} SkipFacts(path: Name)
    requires path != []
    ensures var p := Skip(path); NameLen(p) <= |p| <= |path| && |p| - NameLen(p) < |path|
  {
  }

  /** ext2_open_file: it ends, whatever links there are, and opens what the path means. */
  method OpenFile(w: World, path: Name) returns (r: Result)
    requires Sane(w) && |path| <= MAXPATHLEN && 0 !in path
    ensures r == Open(w, path)
  {
    hide Resolve, OpenDevice, Sane;
    if path == [] { return Fail(NoEntry); }
    var a := new byte[MAXPATHLEN + 1];
    CopyText(a, path + [0]);
    ghost var end: nat := |path|;
    assert a[..end] == path && a[..][end] == 0;
    IsStr(a, end, path, []);
    assert a[0..end] == path;
    var isDev := StrPrefix(a, 0, DevPrefix(), end);
    if !isDev { return Fail(NoEntry); }
    assert a[5..end] == path[5..];
    var done: bool, dev: Name, cp: nat;
    done, r, dev, cp := DeviceStep(w, a, 5, end, MAXSYMLINKS);
    if done { return; }
    var ino: nat, nlinks: nat := ROOTINO, 0;
    while a[cp] != 0
      invariant Str(a, cp, end) && a.Length == MAXPATHLEN + 1 && nlinks <= MAXSYMLINKS
      invariant HasFs(w, dev) && ino in w[dev].nodes
      invariant Resolve(w, MAXSYMLINKS - nlinks, dev, ino, a[cp..end]) == Open(w, path)
      decreases MAXSYMLINKS - nlinks, end - cp
    {
      done, r, cp, end, dev, ino, nlinks := Step(w, a, cp, end, dev, ino, nlinks);
      if done { return; }
    }
    assert a[cp..end] == [];
    ResolveEnd(w, MAXSYMLINKS - nlinks, dev, ino);
    r := Opened(dev, ino);
  }

  lemma {:induction false} ResolveEnd(w: World, links: nat, dev: Name, ino: nat)
    requires HasFs(w, dev) && ino in w[dev].nodes
    ensures Resolve(w, links, dev, ino, []) == Opened(dev, ino)
  {
  }
}
