/** Choosing the analytics property of the site picked on the dashboard
    (app.py, the site selector): the registry rows as read from the
    spreadsheet, the names offered, and the property of the first row whose
    name is the one picked. */
module Sites {
  import opened Wrappers

  datatype SiteRecord = SiteRecord(name: string, propertyId: string)

  /** `sites['SiteName'].tolist()`: the names offered, in registry order. */
  function SiteOptions(sites: seq<SiteRecord>): (names: seq<string>)
    ensures |names| == |sites|
    ensures forall i :: 0 <= i < |sites| ==> names[i] == sites[i].name
  {
    if sites == [] then [] else [sites[0].name] + SiteOptions(sites[1..])
  }

  /** `sites[sites['SiteName'] == name]`: the rows with that name, in order.
      Every row kept is a registry row with that name, every registry row
      with that name is kept, and the first row kept is the first such row. */
  function Matching(sites: seq<SiteRecord>, name: string): (m: seq<SiteRecord>)
    ensures |m| <= |sites|
    ensures forall r :: r in m ==> r in sites && r.name == name
    ensures forall j :: 0 <= j < |sites| && sites[j].name == name ==> sites[j] in m
    ensures forall i :: 0 <= i < |sites| && sites[i].name == name ==>
      (forall j :: 0 <= j < i ==> sites[j].name != name) ==> m != [] && m[0] == sites[i]
  {
    if sites == [] then []
    else
      assert forall j :: 1 <= j < |sites| ==> sites[j] == sites[1..][j - 1];
      (if sites[0].name == name then [sites[0]] else []) + Matching(sites[1..], name)
  }

  /** `...['PropertyID'].iloc[0]`: the first match's property, or None where
      the script would fail on an empty selection. */
  function SelectProperty(sites: seq<SiteRecord>, name: string): (p: Option<string>)
    ensures p.Some? ==> exists i :: 0 <= i < |sites| && sites[i].name == name && sites[i].propertyId == p.value
  {
    var matches := Matching(sites, name);
    if matches == [] then None else Some(matches[0].propertyId)
  }

  /** The property chosen is that of the first row with the picked name. */
  lemma {:induction false} SelectFirstMatch(sites: seq<SiteRecord>, name: string, i: nat)
    requires i < |sites| && sites[i].name == name
    requires forall j :: 0 <= j < i ==> sites[j].name != name
    ensures SelectProperty(sites, name) == Some(sites[i].propertyId)
  {
    if i > 0 {
      SelectFirstMatch(sites[1..], name, i - 1);
    }
  }

  /** There is no property exactly when no row has the picked name. */
  lemma {:induction false} SelectNoMatch(sites: seq<SiteRecord>, name: string)
    ensures SelectProperty(sites, name).None? <==> forall i :: 0 <= i < |sites| ==> sites[i].name != name
  {
    if sites != [] {
      SelectNoMatch(sites[1..], name);
      if sites[0].name != name {
        forall i | 0 < i < |sites|
          ensures sites[i].name == sites[1..][i - 1].name
        {
        }
      }
    }
  }

  /** A name the selector offers always has a property. */
  lemma OfferedNameHasProperty(sites: seq<SiteRecord>, name: string)
    requires name in SiteOptions(sites)
    ensures SelectProperty(sites, name).Some?
  {
    var i :| 0 <= i < |sites| && SiteOptions(sites)[i] == name;
    SelectNoMatch(sites, name);
  }
}
