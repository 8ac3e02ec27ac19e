/** TMOS names of VLANs: declarationHandler.js parseTmosName and getTmosName, and the sorting of name lists. */
module VlanNames {
  import opened Prelude
  import opened Text

  datatype ParsedName = ParsedName(name: Option<string>, folder: string, partition: string)

  const COMMON := "Common"

  predicate StartsWithSlash(s: string) { s != "" && s[0] == '/' }

  /** `tmosNameParts[3] || tmosNameParts[2]`, where a missing part is undefined and an empty one is falsy. */
  function ParseTmosName(tmosName: string): ParsedName
  {
    if !StartsWithSlash(tmosName) then ParsedName(Some(tmosName), "", COMMON)
    else
      var parts := Split(tmosName, "/");
      var foldered := |parts| > 3 && parts[3] != "";
      ParsedName(
        if foldered then Some(parts[3]) else if |parts| > 2 then Some(parts[2]) else None,
        if foldered then parts[2] else "",
        if |parts| > 1 then parts[1] else "")
  }

  /** String interpolation prints a missing name as "undefined". */
  function GetTmosName(p: ParsedName): string
  {
    "/" + p.partition + "/" + p.folder + (if p.folder != "" then "/" else "")
    + (if p.name.Some? then p.name.value else "undefined")
  }

  /** How the VLAN fix sees one list entry: left alone, or a folderless Common VLAN with this name and full name. */
  datatype Tag = Foreign | Plain(name: Option<string>, full: string)

  function TagOf(entry: string): Tag
  {
    var parsed := ParseTmosName(entry);
    if parsed.partition == COMMON && parsed.folder == "" then Plain(parsed.name, GetTmosName(parsed)) else Foreign
  }

  function FullName(name: string): string { "/" + COMMON + "/" + name }

  function Qualify(entry: string): string
  {
    if StartsWithSlash(entry) then entry else FullName(entry)
  }

  /** The three naming functions as one value; the proofs about the VLAN fix only use the laws below. */
  datatype Naming = Naming(tag: string -> Tag, qualify: string -> string, full: string -> string)

  const TMOS := Naming(e => TagOf(e), e => Qualify(e), v => FullName(v))

  /** What the VLAN fix relies on. `vlans` are the declared names, `attached` the listed names of the device. */
  ghost predicate Lawful(naming: Naming, vlans: seq<string>, attached: set<string>)
  {
    && (forall e :: naming.tag(e).Foreign? ==> naming.qualify(e) == e)
    && (forall e :: naming.qualify(e) == e || naming.qualify(e) == naming.tag(e).full)
    && (forall e :: naming.qualify(naming.qualify(e)) == naming.qualify(e))
    && (forall e | naming.tag(e).Plain? && naming.tag(e).name.Some? ::
          naming.tag(e).full == naming.full(naming.tag(e).name.value))
    && (forall v <- vlans :: naming.tag(v) == Plain(Some(v), naming.full(v)))
    && (forall v <- vlans :: naming.tag(naming.full(v)) == Plain(Some(v), naming.full(v)))
    && (forall v, w | naming.full(v) == naming.full(w) :: v == w)
    && (forall a <- attached | naming.tag(a).Plain? :: naming.tag(a).full == a)
  }

  lemma PlainParts(partition: string, name: string)
    requires '/' !in partition && '/' !in name
    ensures Split("/" + partition + "/" + name, "/") == ["", partition, name]
  {
    hide Split;
    assert "/" + partition + "/" + name == "" + "/" + (partition + "/" + name);
    SplitPrefix("", partition + "/" + name, "/");
    SplitPrefix(partition, name, "/");
    SplitAtom(name, "/");
  }

  /** What a full name is made of. */
  lemma PlainTmosName(partition: string, name: string)
    requires '/' !in partition && '/' !in name
    ensures ParseTmosName("/" + partition + "/" + name) == ParsedName(Some(name), "", partition)
    ensures GetTmosName(ParsedName(Some(name), "", partition)) == "/" + partition + "/" + name
  {
    hide Split;
    PlainParts(partition, name);
    assert ("/" + partition + "/" + name)[0] == '/';
  }

  lemma FolderedParts(partition: string, folder: string, name: string)
    requires '/' !in partition && '/' !in folder && '/' !in name
    ensures Split("/" + partition + "/" + folder + "/" + name, "/") == ["", partition, folder, name]
  {
    hide Split;
    assert "/" + partition + "/" + folder + "/" + name == "" + "/" + (partition + "/" + (folder + "/" + name));
    SplitPrefix("", partition + "/" + (folder + "/" + name), "/");
    SplitPrefix(partition, folder + "/" + name, "/");
    PlainTail(folder, name);
  }

  lemma PlainTail(folder: string, name: string)
    requires '/' !in folder && '/' !in name
    ensures Split(folder + "/" + name, "/") == [folder, name]
  {
    hide Split;
    SplitPrefix(folder, name, "/");
    SplitAtom(name, "/");
  }

  /** The same with a folder. */
  lemma FolderedTmosName(partition: string, folder: string, name: string)
    requires folder != "" && name != "" && '/' !in partition && '/' !in folder && '/' !in name
    ensures ParseTmosName("/" + partition + "/" + folder + "/" + name) == ParsedName(Some(name), folder, partition)
    ensures GetTmosName(ParsedName(Some(name), folder, partition)) == "/" + partition + "/" + folder + "/" + name
  {
    hide Split;
    FolderedParts(partition, folder, name);
    assert ("/" + partition + "/" + folder + "/" + name)[0] == '/';
  }

  /** A partition alone has no name, and is printed as if it had one. */
  lemma PartitionAlone(partition: string)
    requires '/' !in partition
    ensures ParseTmosName("/" + partition) == ParsedName(None, "", partition)
    ensures GetTmosName(ParsedName(None, "", partition)) == "/" + partition + "/undefined"
  {
    assert "/" + partition == "" + "/" + partition;
    SplitPrefix("", partition, "/");
    SplitAtom(partition, "/");
    hide Split;
    assert Split("/" + partition, "/") == ["", partition];
    assert "/" + partition + "/" + "" + "" + "undefined" == "/" + partition + "/undefined";
  }

  /** A name without a slash denotes the same VLAN as its full name. */
  lemma UnqualifiedName(v: string)
    requires '/' !in v
    ensures TagOf(v) == Plain(Some(v), "/Common/" + v) && TagOf("/Common/" + v) == Plain(Some(v), "/Common/" + v)
    ensures Qualify(v) == "/Common/" + v == FullName(v)
  {
    hide Split, GetTmosName;
    var full := "/Common/" + v;
    assert "/" + "Common" + "/" + v == full && full[0] == '/';
    PlainTmosName("Common", v);
    assert FullName(v) == full;
    hide ParseTmosName;
    PlainEntry(v);
  }

  lemma PlainEntry(v: string)
    requires '/' !in v
    ensures ParseTmosName(v) == ParsedName(Some(v), "", "Common")
  {
    hide Split;
  }

  lemma FullNameInjective(v: string, w: string)
    requires FullName(v) == FullName(w)
    ensures v == w
  {
    assert FullName(v)[|COMMON| + 2..] == v && FullName(w)[|COMMON| + 2..] == w;
  }

  /** TMOS naming obeys the laws for unqualified declared names and fully qualified attached ones. */
  lemma TmosLawful(vlans: seq<string>, attached: set<string>)
    requires forall v <- vlans :: '/' !in v
    requires forall a <- attached | TagOf(a).Plain? :: TagOf(a).full == a
    ensures Lawful(TMOS, vlans, attached)
  {
    forall e ensures TagOf(e).Foreign? ==> Qualify(e) == e
      ensures Qualify(e) == e || Qualify(e) == TagOf(e).full
      ensures Qualify(Qualify(e)) == Qualify(e)
      ensures TagOf(e).Plain? && TagOf(e).name.Some? ==> TagOf(e).full == FullName(TagOf(e).name.value)
    {
      QualifyLaws(e);
    }
    forall v <- vlans ensures TagOf(v) == Plain(Some(v), FullName(v))
      ensures TagOf(FullName(v)) == Plain(Some(v), FullName(v))
    {
      UnqualifiedName(v);
    }
    forall v, w | FullName(v) == FullName(w) ensures v == w {
      FullNameInjective(v, w);
    }
  }

  lemma QualifyLaws(e: string)
    ensures TagOf(e).Foreign? ==> Qualify(e) == e
    ensures Qualify(e) == e || (TagOf(e).Plain? && Qualify(e) == TagOf(e).full)
    ensures Qualify(Qualify(e)) == Qualify(e)
    ensures TagOf(e).Plain? && TagOf(e).name.Some? ==> TagOf(e).full == FullName(TagOf(e).name.value)
  {
    var p := ParseTmosName(e);
    if p.partition == COMMON && p.folder == "" && p.name.Some? {
      assert "/" + COMMON + "/" + "" + "" + p.name.value == FullName(p.name.value);
    }
    if !StartsWithSlash(e) {
      assert TagOf(e) == Plain(Some(e), GetTmosName(ParsedName(Some(e), "", COMMON)));
      assert "/" + COMMON + "/" + "" + "" + e == FullName(e);
    }
  }

  // ---------------------------------------------------------------- sorting

  predicate AtMost(a: string, b: string)
  {
    a == "" || (b != "" && (a[0] < b[0] || (a[0] == b[0] && AtMost(a[1..], b[1..]))))
  }

  lemma {:induction false} AtMostTotal(a: string, b: string)
    ensures AtMost(a, b) || AtMost(b, a)
  {
    if a != "" && b != "" && a[0] == b[0] {
      AtMostTotal(a[1..], b[1..]);
    }
  }

  lemma SameStart(a: string, b: string, i: nat)
    requires i <= |a| && i <= |b| && a[..i] == b[..i]
    ensures i == 0 || a[0] == b[0]
  {
    if i > 0 {
      assert a[..i][0] == b[..i][0];
    }
  }

  /** The order is that of a dictionary: a prefix comes first, otherwise the first different character decides. */
  lemma {:induction false} AtMostIff(a: string, b: string)
    ensures AtMost(a, b) <==>
      a <= b || exists i :: 0 <= i < |a| && i < |b| && a[..i] == b[..i] && a[i] < b[i]
  {
    if a != "" && b != "" {
      var c, d := a[1..], b[1..];
      AtMostIff(c, d);
      if a[0] == b[0] {
        assert c <= d <==> a <= b;
        if i :| 0 <= i < |c| && i < |d| && c[..i] == d[..i] && c[i] < d[i] {
          assert a[..i + 1] == [a[0]] + c[..i] && b[..i + 1] == [b[0]] + d[..i] && a[i + 1] < b[i + 1];
        }
        if i :| 0 <= i < |a| && i < |b| && a[..i] == b[..i] && a[i] < b[i] {
          assert i > 0 && c[..i - 1] == a[..i][1..] && d[..i - 1] == b[..i][1..] && c[i - 1] < d[i - 1];
        }
      } else {
        if a[0] < b[0] { assert a[..0] == b[..0]; }
        if i :| 0 <= i < |a| && i < |b| && a[..i] == b[..i] && a[i] < b[i] {
          SameStart(a, b, i);
        }
      }
    }
  }

  predicate Ascending(xs: seq<string>)
  {
    |xs| > 1 ==> AtMost(xs[0], xs[1]) && Ascending(xs[1..])
  }

  function Insert(x: string, xs: seq<string>): seq<string>
  {
    if xs == [] || AtMost(x, xs[0]) then [x] + xs else [xs[0]] + Insert(x, xs[1..])
  }

  /** `xs.sort()`. */
  function Sort(xs: seq<string>): seq<string>
  {
    if xs == [] then [] else Insert(xs[0], Sort(xs[1..]))
  }

  lemma {:induction false} InsertAscending(x: string, xs: seq<string>)
    requires Ascending(xs)
    ensures Ascending(Insert(x, xs))
    ensures multiset(Insert(x, xs)) == multiset(xs) + multiset{x}
  {
    if xs == [] {
    } else if AtMost(x, xs[0]) {
      assert ([x] + xs)[1..] == xs;
    } else {
      AtMostTotal(x, xs[0]);
      InsertAscending(x, xs[1..]);
      var rest := Insert(x, xs[1..]);
      assert ([xs[0]] + rest)[1..] == rest;
      assert xs == [xs[0]] + xs[1..];
    }
  }

  /** Sorting gives an ascending permutation. */
  lemma {:induction false} SortAscending(xs: seq<string>)
    ensures Ascending(Sort(xs)) && multiset(Sort(xs)) == multiset(xs)
  {
    if xs != [] {
      SortAscending(xs[1..]);
      InsertAscending(xs[0], Sort(xs[1..]));
      assert xs == [xs[0]] + xs[1..];
    }
  }

  /** Sorting what is sorted changes nothing. */
  lemma {:induction false} SortFixed(xs: seq<string>)
    requires Ascending(xs)
    ensures Sort(xs) == xs
  {
    if xs != [] {
      if |xs| > 1 {
        SortFixed(xs[1..]);
      }
      assert xs == [xs[0]] + xs[1..];
    }
  }
}
