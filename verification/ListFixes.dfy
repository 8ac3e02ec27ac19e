/**
 * declarationHandler.js, the fixes for address and port lists: with the firewall module provisioned, every list has a
 * namesake in the other class, which the diff must not see when only one of the two is declared.
 */
module ListFixes {
  import opened Prelude
  import opened Json
  import opened ClassNames
  import Del = DeleteHandler

  /** The names of the class that are declared in the class of the namesakes. */
  function Shadowed(declaration: map<string, Json>, c: string): set<string>
  {
    if NamesakeOf(c).Some? then KeysOf(Lookup(declaration, NamesakeOf(c).value)) else {}
  }

  function WithoutNames(j: Json, names: set<string>): Json
  {
    if j.Obj? then Obj(map n | n in j.fields && n !in names :: j.fields[n]) else j
  }

  /** The current configuration as the diff sees it. */
  function Unshadowed(declaration: map<string, Json>, current: map<string, Json>): map<string, Json>
  {
    map c | c in current :: WithoutNames(current[c], Shadowed(declaration, c))
  }

  /** One class without some of its names. */
  function Reduced(current: map<string, Json>, c: string, names: set<string>): map<string, Json>
  {
    map k | k in current :: if k == c then WithoutNames(current[k], names) else current[k]
  }

  lemma WithoutNothing(j: Json)
    ensures WithoutNames(j, {}) == j
  {
    if j.Obj? {
      SameFields(WithoutNames(j, {}).fields, j.fields);
    }
  }

  lemma ReducedByNothing(current: map<string, Json>, c: string)
    ensures Reduced(current, c, {}) == current
  {
    if c in current {
      WithoutNothing(current[c]);
    }
    SameFields(Reduced(current, c, {}), current);
  }

  lemma ReducedAll(declaration: map<string, Json>, current: map<string, Json>)
    ensures var addresses := Reduced(current, "NetAddressList", KeysOf(Lookup(declaration, "FirewallAddressList")));
      var ports := Reduced(addresses, "NetPortList", KeysOf(Lookup(declaration, "FirewallPortList")));
      var both := Reduced(ports, "FirewallAddressList", KeysOf(Lookup(declaration, "NetAddressList")));
      Reduced(both, "FirewallPortList", KeysOf(Lookup(declaration, "NetPortList"))) == Unshadowed(declaration, current)
  {
    hide WithoutNames, Shadowed;
    forall c <- current ensures Unshadowed(declaration, current)[c] ==
      if c == "NetAddressList" then WithoutNames(current[c], KeysOf(Lookup(declaration, "FirewallAddressList")))
      else if c == "NetPortList" then WithoutNames(current[c], KeysOf(Lookup(declaration, "FirewallPortList")))
      else if c == "FirewallAddressList" then WithoutNames(current[c], KeysOf(Lookup(declaration, "NetAddressList")))
      else if c == "FirewallPortList" then WithoutNames(current[c], KeysOf(Lookup(declaration, "NetPortList")))
      else current[c]
    {
      ShadowedTable(declaration, c);
      WithoutNothing(current[c]);
    }
  }

  lemma ShadowedTable(declaration: map<string, Json>, c: string)
    ensures Shadowed(declaration, c) ==
      if c == "NetAddressList" then KeysOf(Lookup(declaration, "FirewallAddressList"))
      else if c == "NetPortList" then KeysOf(Lookup(declaration, "FirewallPortList"))
      else if c == "FirewallAddressList" then KeysOf(Lookup(declaration, "NetAddressList"))
      else if c == "FirewallPortList" then KeysOf(Lookup(declaration, "NetPortList"))
      else {}
  {
    ListClass(Del.FirewallAddressList);
    ListClass(Del.FirewallPortList);
    ListClass(Del.NetAddressList);
    ListClass(Del.NetPortList);
    hide ClassOf, NamesakeOf;
    if NamesakeOf(c).Some? {
      NamesakeClass(c);
    }
  }

  /** The Common tenant of the parsed current configuration, which is that of state.currentConfig. */
  class CurrentConfiguration {
    var fields: map<string, Json>

    constructor (common: map<string, Json>)
      ensures fields == common
    {
      fields := common;
    }

    /** One of the four functions: `declared` is its own class, `namesakes` the other one. */
    method ApplyListFix(declaration: map<string, Json>, declared: string, namesakes: string)
      modifies this
      ensures fields == Reduced(old(fields), namesakes, KeysOf(Lookup(declaration, declared)))
    {
      var lists := KeysOf(Lookup(declaration, declared));
      ghost var before := fields;
      if lists == {} {
        ReducedByNothing(fields, namesakes);
        return;
      }
      if namesakes in fields && fields[namesakes].Obj? {
        var names := fields[namesakes].fields.Keys;
        while names != {}
          invariant names <= before[namesakes].fields.Keys
          invariant fields.Keys == before.Keys && fields[namesakes].Obj?
          invariant forall c <- fields | c != namesakes :: fields[c] == before[c]
          invariant fields[namesakes].fields ==
            map n | n in before[namesakes].fields && (n in names || n !in lists) :: before[namesakes].fields[n]
          decreases names
        {
          var name :| name in names;
          if name in lists {
            fields := fields[namesakes := Obj(RemoveKey(fields[namesakes].fields, name))];
          }
          names := names - {name};
        }
        SameFields(fields[namesakes].fields, WithoutNames(before[namesakes], lists).fields);
      }
      SameFields(fields, Reduced(before, namesakes, lists));
    }

    method ApplyListFixes(declaration: map<string, Json>)
      modifies this
      ensures fields == Unshadowed(declaration, old(fields))
    {
      hide Reduced, Unshadowed;
      ReducedAll(declaration, fields);
      ApplyListFix(declaration, "FirewallAddressList", "NetAddressList");
      ApplyListFix(declaration, "FirewallPortList", "NetPortList");
      ApplyListFix(declaration, "NetAddressList", "FirewallAddressList");
      ApplyListFix(declaration, "NetPortList", "FirewallPortList");
    }
  }
}
