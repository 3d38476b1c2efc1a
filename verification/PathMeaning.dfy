/** What a path means, from the records of the directories alone: components lead from directory to
    directory, and a link stands for its text. */
module PathMeaning {
  import opened Bits
  import opened PathWalk

  // ----- records -----

  predicate InUse(e: Entry, name: Name)
  {
    e.inode != 0 && e.name == name
  }

  /** The first record in use with that name is for inode i. */
  ghost predicate Names(entries: seq<Entry>, name: Name, i: nat)
  {
    exists k :: 0 <= k < |entries| && FirstAt(entries, name, k) && entries[k].inode == i
  }

  predicate FirstAt(entries: seq<Entry>, name: Name, k: nat)
  {
    k < |entries| && InUse(entries[k], name) && forall j :: 0 <= j < k ==> !InUse(entries[j], name)
  }

  predicate Absent(entries: seq<Entry>, name: Name)
  {
    forall j :: 0 <= j < |entries| ==> !InUse(entries[j], name)
  }

  lemma {:induction false} FindFirst(entries: seq<Entry>, name: Name, k: nat)
    requires FirstAt(entries, name, k)
    ensures Find(entries, name) == At(entries[k].inode)
  {
    if k > 0 {
      assert !InUse(entries[0], name);
      FindFirst(entries[1..], name, k - 1);
    }
  }

  lemma {:induction false} FindAbsent(entries: seq<Entry>, name: Name)
    requires Absent(entries, name)
    ensures Find(entries, name) == Missing
  {
    if entries != [] {
      assert !InUse(entries[0], name);
      FindAbsent(entries[1..], name);
    }
  }

  // ----- components -----

  /** A component that can be looked up. */
  predicate GoodName(c: Name)
  {
    0 < |c| <= MAXNAMLEN + 1 && forall i :: 0 <= i < |c| ==> c[i] != SLASH && c[i] < 128
  }

  lemma {:induction false} CheckGood(c: Name, i: nat)
    requires GoodName(c) && i <= |c|
    ensures Check(c, i) == Good
    decreases |c| - i
  {
    if i < |c| { CheckGood(c, i + 1); }
  }

  function Slashes(n: nat): (s: Name)
    ensures |s| == n && forall i :: 0 <= i < n ==> s[i] == SLASH
  {
    seq(n, _ => SLASH)
  }

  /** A component, with the separators before it. */
  datatype Part = Part(seps: nat, name: Name)

  function Spell(cs: seq<Part>): Name
  {
    if cs == [] then [] else Slashes(cs[0].seps) + cs[0].name + Spell(cs[1..])
  }

  predicate Separated(cs: seq<Part>)
  {
    forall k :: 0 <= k < |cs| ==> cs[k].seps > 0 && GoodName(cs[k].name)
  }

  /** The path ends after a component, or goes on with a separator. */
  predicate Tail(rest: Name)
  {
    rest == [] || rest[0] == SLASH
  }

  lemma {:induction false} TailOf(cs: seq<Part>, rest: Name)
    requires Separated(cs) && Tail(rest)
    ensures Tail(Spell(cs) + rest)
  {
    if cs != [] { assert cs[0].seps > 0; }
  }

  lemma {:induction false} NextPart(n: nat, c: Name, rest: Name)
    requires GoodName(c) && Tail(rest)
    ensures var path := Slashes(n) + c + rest;
      && path != [] && Skip(path) == c + rest && NameLen(Skip(path)) == |c|
      && Skip(path)[..|c|] == c && Skip(path)[|c|..] == rest
  {
    NextName(n, c, rest);
  }

  /** The next component of a path and what follows it. */
  lemma {:induction false} NextName(n: nat, c: Name, rest: Name)
    requires c != [] && SLASH !in c && Tail(rest)
    ensures var path := Slashes(n) + c + rest;
      && path != [] && Skip(path) == c + rest && NameLen(Skip(path)) == |c|
      && Skip(path)[..|c|] == c && Skip(path)[|c|..] == rest
  {
    hide Leading, NameLen;
    var path := Slashes(n) + c + rest;
    assert path[n] == c[0] && forall i :: 0 <= i < n ==> path[i] == SLASH;
    assert Leading(path) == n;
    NameBefore(c, rest);
    assert Skip(path) == c + rest;
  }

  lemma {:induction false} NameBefore(c: Name, rest: Name)
    requires (forall i :: 0 <= i < |c| ==> c[i] != SLASH) && Tail(rest)
    ensures var p := c + rest; NameLen(p) == |c| && p[..|c|] == c && p[|c|..] == rest
  {
    hide NameLen;
    var p := c + rest;
    assert (forall i :: 0 <= i < |c| ==> p[i] == c[i]) && (rest != [] ==> p[|c|] == rest[0]);
    assert NameLen(p) == |c|;
  }

  // ----- where components lead -----

  /** From inode d by component c to inode i, which is not a link. */
  ghost predicate Enters(nodes: map<nat, Node>, d: nat, c: Name, i: nat)
  {
    d in nodes && nodes[d].Dir? && Names(nodes[d].entries, c, i) && i in nodes && !nodes[i].Link?
  }

  /** From inode d by these components to inode n, without a link on the way. */
  ghost predicate Leads(nodes: map<nat, Node>, d: nat, cs: seq<Part>, n: nat)
    decreases |cs|
  {
    if cs == [] then d == n && d in nodes
    else exists i :: Enters(nodes, d, cs[0].name, i) && Leads(nodes, i, cs[1..], n)
  }

  /** One component. */
  lemma {:induction false} ResolvePart(w: World, links: nat, dev: Name, d: nat, i: nat, c: Part, rest: Name)
    requires HasFs(w, dev) && Enters(w[dev].nodes, d, c.name, i) && GoodName(c.name) && Tail(rest)
    ensures Resolve(w, links, dev, d, Slashes(c.seps) + c.name + rest) == Resolve(w, links, dev, i, rest)
  {
    hide Restart, Find, Skip, NameLen, Check;
    var es := w[dev].nodes[d].entries;
    var k: nat :| k < |es| && FirstAt(es, c.name, k) && es[k].inode == i;
    FindFirst(es, c.name, k);
    CheckGood(c.name, 0);
    NextPart(c.seps, c.name, rest);
  }

  /** Components that lead from inode d to inode n: the rest of the path is opened from there. */
  lemma {:induction false} ResolveParts(w: World, links: nat, dev: Name, d: nat, cs: seq<Part>, n: nat, rest: Name)
    requires HasFs(w, dev) && d in w[dev].nodes && Leads(w[dev].nodes, d, cs, n) && Separated(cs) && Tail(rest)
    ensures n in w[dev].nodes && Resolve(w, links, dev, d, Spell(cs) + rest) == Resolve(w, links, dev, n, rest)
    decreases |cs|
  {
    hide Resolve;
    if cs == [] {
      assert Spell(cs) + rest == rest;
    } else {
      var i :| Enters(w[dev].nodes, d, cs[0].name, i) && Leads(w[dev].nodes, i, cs[1..], n);
      var more := Spell(cs[1..]) + rest;
      TailOf(cs[1..], rest);
      ResolvePart(w, links, dev, d, i, cs[0], more);
      assert Spell(cs) + rest == Slashes(cs[0].seps) + cs[0].name + more;
      ResolveParts(w, links, dev, i, cs[1..], n, rest);
    }
  }

  /** A device name and the rest of the path. */
  lemma {:induction false} DeviceParts(w: World, links: nat, dev: Name, cs: seq<Part>, n: nat, rest: Name)
    requires HasFs(w, dev) && SLASH !in dev && ROOTINO in w[dev].nodes && Leads(w[dev].nodes, ROOTINO, cs, n)
    requires Separated(cs) && Tail(rest) && (cs != [] || rest != [])
    ensures n in w[dev].nodes && OpenDevice(w, links, dev + (Spell(cs) + rest)) == Resolve(w, links, dev, n, rest)
  {
    hide Resolve, NameLen, Leads;
    var more := Spell(cs) + rest;
    TailOf(cs, rest);
    NameBefore(dev, more);
    assert more != [] by { if cs != [] { assert cs[0].seps > 0; } }
    ResolveParts(w, links, dev, ROOTINO, cs, n, rest);
  }

  lemma {:induction false} AfterPrefix(path: Name)
    ensures DevPrefix() <= DevPrefix() + path && (DevPrefix() + path)[5..] == path
  {
  }

  /** Opening a path: if its components lead from the root of its device to inode n, with any number
      of separators between them, the rest is opened from there. */
  lemma {:induction false} OpenParts(w: World, dev: Name, cs: seq<Part>, n: nat, rest: Name)
    requires HasFs(w, dev) && SLASH !in dev && ROOTINO in w[dev].nodes && Leads(w[dev].nodes, ROOTINO, cs, n)
    requires Separated(cs) && Tail(rest) && (cs != [] || rest != [])
    ensures n in w[dev].nodes
    ensures Open(w, DevPrefix() + (dev + (Spell(cs) + rest))) == Resolve(w, MAXSYMLINKS, dev, n, rest)
  {
    hide Resolve, OpenDevice, Leads;
    AfterPrefix(dev + (Spell(cs) + rest));
    DeviceParts(w, MAXSYMLINKS, dev, cs, n, rest);
  }

  /** A path whose components lead from the root of its device to inode n opens n. */
  lemma {:induction false} OpenLeads(w: World, dev: Name, cs: seq<Part>, n: nat)
    requires HasFs(w, dev) && SLASH !in dev && ROOTINO in w[dev].nodes && Leads(w[dev].nodes, ROOTINO, cs, n)
    requires Separated(cs) && cs != []
    ensures Open(w, DevPrefix() + (dev + Spell(cs))) == Opened(dev, n)
  {
    hide Resolve, Leads;
    assert Spell(cs) + [] == Spell(cs);
    OpenParts(w, dev, cs, n, []);
    ResolveEnd(w, MAXSYMLINKS, dev, n);
  }

  /** The name of a device alone opens the device. */
  lemma {:induction false} OpenDeviceAlone(w: World, dev: Name)
    requires SLASH !in dev
    ensures Open(w, DevPrefix() + dev) == if dev in w then OpenedDevice(dev) else Fail(NoDevice)
  {
    hide NameLen;
    AfterPrefix(dev);
    assert dev + [] == dev;
    NameBefore(dev, []);
  }

  // ----- where they lead nowhere -----

  /** A component under a file that is not a directory, one that no record in use has, and one whose
      inode cannot be read. */
  lemma {:induction false} ResolveFails(w: World, links: nat, dev: Name, d: nat, c: Part, rest: Name)
    requires HasFs(w, dev) && d in w[dev].nodes && GoodName(c.name) && Tail(rest)
    ensures var nodes, r := w[dev].nodes, Resolve(w, links, dev, d, Slashes(c.seps) + c.name + rest);
      && (!nodes[d].Dir? ==> r == Fail(NotDirectory))
      && (nodes[d].Dir? && Absent(nodes[d].entries, c.name) ==> r == Fail(NoEntry))
      && (nodes[d].Dir? ==> forall i :: Names(nodes[d].entries, c.name, i) && i !in nodes ==> r == Fail(BadInode))
  {
    hide Restart, Find, Skip, NameLen, Check;
    var nodes := w[dev].nodes;
    CheckGood(c.name, 0);
    NextPart(c.seps, c.name, rest);
    if nodes[d].Dir? {
      var es := nodes[d].entries;
      if Absent(es, c.name) { FindAbsent(es, c.name); }
      forall i | Names(es, c.name, i) ensures Find(es, c.name) == At(i) {
        var k: nat :| k < |es| && FirstAt(es, c.name, k) && es[k].inode == i;
        FindFirst(es, c.name, k);
      }
    }
  }

  /** A component that is too long or has a byte outside ASCII, whichever comes first. */
  lemma {:induction false} CheckBad(c: Name, i: nat)
    requires i <= |c| && i <= MAXNAMLEN + 1
    ensures Check(c, i) == Bad(InvalidParameter) <==> exists j :: i <= j < |c| && j <= MAXNAMLEN && c[j] >= 128
    decreases |c| - i
  {
    if i < |c| && i <= MAXNAMLEN && c[i] < 128 { CheckBad(c, i + 1); }
  }

  /** Such a component is refused wherever it leads. */
  lemma {:induction false} ResolveBadName(w: World, links: nat, dev: Name, d: nat, c: Part, rest: Name)
    requires HasFs(w, dev) && d in w[dev].nodes && w[dev].nodes[d].Dir?
    requires c.name != [] && SLASH !in c.name && !GoodName(c.name) && Tail(rest)
    ensures var early := exists j :: 0 <= j < |c.name| && j <= MAXNAMLEN && c.name[j] >= 128;
      Resolve(w, links, dev, d, Slashes(c.seps) + c.name + rest) ==
      Fail(if early then InvalidParameter else NameTooLong)
  {
    hide Restart, Find, Skip, NameLen, Check;
    CheckBad(c.name, 0);
    TooLongIff(c.name, 0);
    NextName(c.seps, c.name, rest);
  }

  /** A device that is not there, one without a file system, and one whose root cannot be read. */
  lemma {:induction false} DeviceFails(w: World, dev: Name, rest: Name)
    requires SLASH !in dev && rest != [] && Tail(rest)
    ensures var r := Open(w, DevPrefix() + (dev + rest));
      && (dev !in w ==> r == Fail(NoDevice)) && (dev in w && w[dev].NoFs? ==> r == Fail(InvalidFs))
      && (HasFs(w, dev) && ROOTINO !in w[dev].nodes ==> r == Fail(BadInode))
  {
    hide Resolve, NameLen;
    AfterPrefix(dev + rest);
    NameBefore(dev, rest);
  }

  // ----- links -----

  /** Component c of directory d is a link with this text. */
  ghost predicate IsLink(nodes: map<nat, Node>, d: nat, c: Name, text: Name)
  {
    d in nodes && nodes[d].Dir? && exists i :: Names(nodes[d].entries, c, i) && i in nodes && nodes[i] == Link(text)
  }

  /** What a path with a link in it is opened as. */
  lemma {:induction false} ResolveLink(w: World, links: nat, dev: Name, d: nat, c: Part, text: Name, rest: Name)
    requires HasFs(w, dev) && IsLink(w[dev].nodes, d, c.name, text) && GoodName(c.name) && Tail(rest)
    ensures var r, path := Resolve(w, links, dev, d, Slashes(c.seps) + c.name + rest), text + rest;
      if |path| + 1 >= MAXPATHLEN - 1 then r == Fail(NameTooLong)
      else if links == 0 then r == Fail(SymlinkLoop)
      else if path == [] || path[0] != SLASH then r == Resolve(w, links - 1, dev, d, path)
      else if DevPrefix() <= path then r == OpenDevice(w, links - 1, path[5..])
      else r == if ROOTINO in w[dev].nodes then Resolve(w, links - 1, dev, ROOTINO, path) else Fail(BadInode)
  {
    hide Find, Skip, NameLen, Check, OpenDevice;
    var es := w[dev].nodes[d].entries;
    var i :| Names(es, c.name, i) && i in w[dev].nodes && w[dev].nodes[i] == Link(text);
    var k: nat :| k < |es| && FirstAt(es, c.name, k) && es[k].inode == i;
    FindFirst(es, c.name, k);
    CheckGood(c.name, 0);
    NextPart(c.seps, c.name, rest);
  }

  /** The text of a link before the rest of a path leads to inode n of device dev': from the directory of
      the link, from the root, or from the root of the device it names. */
  ghost predicate LinkLeads(w: World, dev: Name, d: nat, text: Name, rest: Name, cs: seq<Part>, dev': Name, n: nat)
    requires HasFs(w, dev) && HasFs(w, dev')
  {
    cs != [] && Separated(cs) &&
    if text == Spell([cs[0].(seps := 0)] + cs[1..]) then dev' == dev && Leads(w[dev].nodes, d, cs, n)
    else
      && ROOTINO in w[dev'].nodes && Leads(w[dev'].nodes, ROOTINO, cs, n)
      && if text == Spell(cs) then dev' == dev && !(DevPrefix() <= text + rest)
         else text == DevPrefix() + (dev' + Spell(cs)) && SLASH !in dev'
  }

  /** So a path with a link in it is opened as its rest is from there, with one link fewer to follow. */
  lemma {:induction false} ThroughLink(w: World, links: nat, dev: Name, d: nat, c: Part, text: Name, rest: Name,
                                       cs: seq<Part>, dev': Name, n: nat)
    requires HasFs(w, dev) && IsLink(w[dev].nodes, d, c.name, text) && GoodName(c.name) && Tail(rest)
    requires HasFs(w, dev') && LinkLeads(w, dev, d, text, rest, cs, dev', n)
    requires links > 0 && |text| + |rest| + 1 < MAXPATHLEN - 1
    ensures n in w[dev'].nodes
    ensures Resolve(w, links, dev, d, Slashes(c.seps) + c.name + rest) == Resolve(w, links - 1, dev', n, rest)
  {
    hide Resolve, OpenDevice, Leads, Names;
    ResolveLink(w, links, dev, d, c, text, rest);
    TailOf(cs[1..], rest);
    var c0, more := cs[0], Spell(cs[1..]) + rest;
    if text == Spell([c0.(seps := 0)] + cs[1..]) {
      Relative(w, links - 1, dev, d, cs, n, rest);
    } else if text == Spell(cs) {
      assert c0.seps > 0 && text[0] == SLASH;
      ResolveParts(w, links - 1, dev, ROOTINO, cs, n, rest);
    } else {
      assert text + rest == DevPrefix() + (dev' + (Spell(cs) + rest));
      AfterPrefix(dev' + (Spell(cs) + rest));
      DeviceParts(w, links - 1, dev', cs, n, rest);
    }
  }

  /** A path that does not begin with a separator. */
  lemma {:induction false} Relative(w: World, links: nat, dev: Name, d: nat, cs: seq<Part>, n: nat, rest: Name)
    requires HasFs(w, dev) && d in w[dev].nodes && Leads(w[dev].nodes, d, cs, n)
    requires cs != [] && Separated(cs) && Tail(rest)
    ensures var path := Spell([cs[0].(seps := 0)] + cs[1..]) + rest;
      path != [] && path[0] != SLASH && n in w[dev].nodes &&
      Resolve(w, links, dev, d, path) == Resolve(w, links, dev, n, rest)
  {
    hide Resolve;
    var c, more := cs[0].(seps := 0), Spell(cs[1..]) + rest;
    var i :| Enters(w[dev].nodes, d, c.name, i) && Leads(w[dev].nodes, i, cs[1..], n);
    TailOf(cs[1..], rest);
    ResolvePart(w, links, dev, d, i, c, more);
    ResolveParts(w, links, dev, i, cs[1..], n, rest);
    assert ([c] + cs[1..])[1..] == cs[1..];
    assert Spell([c] + cs[1..]) + rest == Slashes(0) + c.name + more;
  }

  /** A leg of a path: components, then a link, whose text is components again. */
  datatype Leg = Leg(cs: seq<Part>, link: Part, text: Name, to: seq<Part>)

  function SpellLegs(legs: seq<Leg>, last: seq<Part>): Name
  {
    if legs == [] then Spell(last)
    else Spell(legs[0].cs) + (Slashes(legs[0].link.seps) + legs[0].link.name + SpellLegs(legs[1..], last))
  }

  predicate LegsSeparated(legs: seq<Leg>, last: seq<Part>)
  {
    && Separated(last)
    && forall k :: 0 <= k < |legs| ==> Separated(legs[k].cs) && legs[k].link.seps > 0 && GoodName(legs[k].link.name)
  }

  /** From inode d of device dev by these legs and components to inode n of device dev'. */
  ghost predicate Travels(w: World, dev: Name, d: nat, legs: seq<Leg>, last: seq<Part>, dev': Name, n: nat)
    requires HasFs(w, dev)
    decreases |legs|
  {
    if legs == [] then dev' == dev && Leads(w[dev].nodes, d, last, n)
    else
      var l, rest := legs[0], SpellLegs(legs[1..], last);
      && |l.text| + |rest| + 1 < MAXPATHLEN - 1
      && exists e, dev2, n2 ::
           && Leads(w[dev].nodes, d, l.cs, e) && IsLink(w[dev].nodes, e, l.link.name, l.text) && HasFs(w, dev2)
           && LinkLeads(w, dev, e, l.text, rest, l.to, dev2, n2) && Travels(w, dev2, n2, legs[1..], last, dev', n)
  }

  lemma {:induction false} LegsTail(legs: seq<Leg>, last: seq<Part>)
    requires LegsSeparated(legs, last)
    ensures Tail(SpellLegs(legs, last))
  {
    if legs == [] {
      TailOf(last, []);
      assert Spell(last) + [] == Spell(last);
    } else {
      var l := legs[0];
      TailOf(l.cs, Slashes(l.link.seps) + l.link.name + SpellLegs(legs[1..], last));
    }
  }

  lemma {:induction false} ResolveLegs(w: World, links: nat, dev: Name, d: nat, legs: seq<Leg>, last: seq<Part>,
                                       dev': Name, n: nat)
    requires HasFs(w, dev) && d in w[dev].nodes && LegsSeparated(legs, last) && |legs| <= links
    requires Travels(w, dev, d, legs, last, dev', n)
    ensures Resolve(w, links, dev, d, SpellLegs(legs, last)) == Opened(dev', n)
    decreases |legs|
  {
    hide Resolve, Leads, Names, LinkLeads;
    if legs == [] {
      assert Spell(last) + [] == Spell(last);
      ResolveParts(w, links, dev, d, last, n, []);
      ResolveEnd(w, links, dev, n);
    } else {
      var l, rest := legs[0], SpellLegs(legs[1..], last);
      var e, dev2, n2 :| Leads(w[dev].nodes, d, l.cs, e) && IsLink(w[dev].nodes, e, l.link.name, l.text) &&
        HasFs(w, dev2) && LinkLeads(w, dev, e, l.text, rest, l.to, dev2, n2) &&
        Travels(w, dev2, n2, legs[1..], last, dev', n);
      LegsTail(legs[1..], last);
      assert Tail(Slashes(l.link.seps) + l.link.name + rest);
      ResolveParts(w, links, dev, d, l.cs, e, Slashes(l.link.seps) + l.link.name + rest);
      ThroughLink(w, links, dev, e, l.link, l.text, rest, l.to, dev2, n2);
      ResolveLegs(w, links - 1, dev2, n2, legs[1..], last, dev', n);
    }
  }

  /** A path with up to eight links in it, relative, absolute or to other devices, opens the inode that
      its components and the texts of its links lead to. */
  lemma {:induction false} OpenTravels(w: World, dev: Name, legs: seq<Leg>, last: seq<Part>, dev': Name, n: nat)
    requires HasFs(w, dev) && SLASH !in dev && ROOTINO in w[dev].nodes && LegsSeparated(legs, last)
    requires Travels(w, dev, ROOTINO, legs, last, dev', n) && |legs| <= MAXSYMLINKS && (legs != [] || last != [])
    ensures Open(w, DevPrefix() + (dev + SpellLegs(legs, last))) == Opened(dev', n)
  {
    hide Resolve, Travels;
    var path := SpellLegs(legs, last);
    LegsTail(legs, last);
    assert path != [] by { if legs == [] { assert last[0].seps > 0; } }
    assert Spell([]) + path == path;
    assert Leads(w[dev].nodes, ROOTINO, [], ROOTINO);
    OpenParts(w, dev, [], ROOTINO, path);
    ResolveLegs(w, MAXSYMLINKS, dev, ROOTINO, legs, last, dev', n);
  }
}
