/**
 * The field extractor of proj2_nps.py: class NationalSite, its extract_*
 * methods and info(). A parsed detail page is represented by the outcome of
 * each lookup path the extractors walk (None when some `find` on the path
 * comes back empty and the chain raises).
 */
module Site {
  import opened Wrappers
  import opened Text

  /**
   * The text nodes the extractors reach on a detail page, each None when the
   * element chain leading to it is incomplete.
   */
  datatype DetailDoc = DetailDoc(
    designation: Option<string>, // `.Hero-designationContainer` > `span.Hero-designation`
    longTitle: Option<string>,   // `.Hero-titleContainer clearfix` > `a.Hero-title -long`
    plainTitle: Option<string>,  // `.Hero-titleContainer clearfix` > `a.Hero-title`
    locality: Option<string>,    // `[itemprop=address]` > `p` > `span[itemprop=addressLocality]`
    region: Option<string>,      // `[itemprop=address]` > `p` > `span[itemprop=addressRegion]`
    postalCode: Option<string>,  // `[itemprop=address]` > `p` > `span[itemprop=postalCode]`
    tel: Option<string>)         // `.vcard` > `span.tel`

  /** A detail page without its address container: every lookup below it fails. */
  function WithoutAddress(d: DetailDoc): DetailDoc {
    d.(locality := None, region := None, postalCode := None)
  }

  const NoAddress := "No address"
  const NoZipcode := "No zipcode"
  const NoPhone := "No phone number"

  /** extract_category: the stripped designation; with no designation element it raises (None). */
  function ExtractCategory(d: DetailDoc): (r: Option<string>)
    ensures r.None? <==> d.designation.None?
    ensures r.Some? ==> r.value == Trim(d.designation.value)
    ensures r.Some? ==> Trim(r.value) == r.value
  {
    TrimIdempotent(d.designation.GetOr(""));
    if d.designation.Some? then Some(Trim(d.designation.value)) else None
  }

  /**
   * extract_name: the stripped long title when that element exists,
   * otherwise the stripped plain title; with neither it raises (None).
   */
  function ExtractName(d: DetailDoc): (r: Option<string>)
    ensures r.None? <==> d.longTitle.None? && d.plainTitle.None?
    ensures d.longTitle.Some? ==> r == Some(Trim(d.longTitle.value))
    ensures d.longTitle.None? && d.plainTitle.Some? ==> r == Some(Trim(d.plainTitle.value))
  {
    if d.longTitle.Some? then Some(Trim(d.longTitle.value))
    else if d.plainTitle.Some? then Some(Trim(d.plainTitle.value))
    else None
  }

  /** "No address" contains no comma. */
  lemma NoAddressHasNoComma()
    ensures forall i :: 0 <= i < |NoAddress| ==> NoAddress[i] != ','
  {
    assert NoAddress == ['N', 'o', ' ', 'a', 'd', 'd', 'r', 'e', 's', 's'];
  }

  /**
   * extract_address: `city, state` when both lookups succeed, the sentinel
   * otherwise. The address is never a partial join: a joined address holds a
   * comma and the sentinel does not, so the two cases cannot be confused.
   */
  function ExtractAddress(d: DetailDoc): (r: string)
    ensures r == NoAddress <==> d.locality.None? || d.region.None?
    ensures d.locality.Some? && d.region.Some? ==> r == Trim(d.locality.value) + ", " + Trim(d.region.value)
  {
    if d.locality.Some? && d.region.Some? then
      var city := Trim(d.locality.value);
      var joined := city + ", " + Trim(d.region.value);
      assert joined[|city|] == ',';
      NoAddressHasNoComma();
      assert |joined| != |NoAddress| || joined[|city|] != NoAddress[|city|];
      joined
    else NoAddress
  }

  /** extract_zipcode: the stripped postal code, or the sentinel when that lookup fails. */
  function ExtractZipcode(d: DetailDoc): (r: string)
    ensures d.postalCode.None? ==> r == NoZipcode
    ensures d.postalCode.Some? ==> r == Trim(d.postalCode.value)
  {
    if d.postalCode.Some? then Trim(d.postalCode.value) else NoZipcode
  }

  /** extract_phone: the stripped telephone number, or the sentinel when that lookup fails. */
  function ExtractPhone(d: DetailDoc): (r: string)
    ensures d.tel.None? ==> r == NoPhone
    ensures d.tel.Some? ==> r == Trim(d.tel.value)
  {
    if d.tel.Some? then Trim(d.tel.value) else NoPhone
  }

  /** An instance of NationalSite. */
  datatype NationalSite = NationalSite(
    url: string, category: string, name: string, address: string, zipcode: string, phone: string)

  /** The two mandatory lookups, category and name, both succeed. */
  predicate Constructible(d: DetailDoc) {
    ExtractCategory(d).Some? && ExtractName(d).Some?
  }

  /**
   * NationalSite(url, soup): runs the five extractors in order; a failure
   * of the category or the name aborts the construction (None).
   */
  function MakeSite(url: string, d: DetailDoc): (r: Option<NationalSite>)
    ensures r.Some? <==> Constructible(d)
    ensures r.Some? ==> r.value.url == url
    ensures r.Some? ==> r.value.category == ExtractCategory(d).value && r.value.name == ExtractName(d).value
    ensures r.Some? ==> r.value.address == ExtractAddress(d) && r.value.zipcode == ExtractZipcode(d)
    ensures r.Some? ==> r.value.phone == ExtractPhone(d)
  {
    match (ExtractCategory(d), ExtractName(d))
    case (Some(category), Some(name)) =>
      Some(NationalSite(url, category, name, ExtractAddress(d), ExtractZipcode(d), ExtractPhone(d)))
    case _ => None
  }

  /** info(): `name (category): address zipcode`; the phone is not shown. */
  function Info(s: NationalSite): (r: string)
    ensures |r| == |s.name| + |s.category| + |s.address| + |s.zipcode| + 6
    ensures r[..|s.name|] == s.name && r[|s.name|..|s.name| + 2] == " ("
  {
    s.name + " (" + s.category + "): " + s.address + " " + s.zipcode
  }

  /** The long title wins whenever it exists, whatever the plain title holds. */
  lemma NamePrefersLongTitle(d: DetailDoc, plain: Option<string>)
    requires d.longTitle.Some?
    ensures ExtractName(d) == ExtractName(d.(plainTitle := plain)) == Some(Trim(d.longTitle.value))
  {
  }

  /** A page missing the whole address container yields both sentinels and raises nothing. */
  lemma MissingAddressContainer(url: string, d: DetailDoc)
    requires MakeSite(url, d).Some?
    ensures MakeSite(url, WithoutAddress(d)).Some?
    ensures MakeSite(url, WithoutAddress(d)).value.address == NoAddress
    ensures MakeSite(url, WithoutAddress(d)).value.zipcode == NoZipcode
  {
  }

  /**
   * Fault isolation: changing or losing the phone lookup changes no other
   * field of the record and cannot make the construction fail.
   */
  lemma PhoneIsolated(url: string, d: DetailDoc, tel: Option<string>)
    ensures MakeSite(url, d.(tel := tel)).Some? <==> MakeSite(url, d).Some?
    ensures MakeSite(url, d).Some? ==>
              MakeSite(url, d.(tel := tel)).value == MakeSite(url, d).value.(phone := ExtractPhone(d.(tel := tel)))
  {
    var e := d.(tel := tel);
    assert ExtractCategory(e) == ExtractCategory(d) && ExtractName(e) == ExtractName(d);
    assert ExtractAddress(e) == ExtractAddress(d) && ExtractZipcode(e) == ExtractZipcode(d);
  }

  /**
   * Fault isolation: the address lookups affect only the address, the postal
   * code only the zipcode.
   */
  lemma AddressIsolated(url: string, d: DetailDoc, locality: Option<string>, region: Option<string>, postalCode: Option<string>)
    ensures var e := d.(locality := locality, region := region, postalCode := postalCode);
            MakeSite(url, e).Some? <==> MakeSite(url, d).Some?
    ensures var e := d.(locality := locality, region := region, postalCode := postalCode);
            MakeSite(url, d).Some? ==>
              MakeSite(url, e).value == MakeSite(url, d).value.(address := ExtractAddress(e), zipcode := ExtractZipcode(e))
  {
    var e := d.(locality := locality, region := region, postalCode := postalCode);
    assert ExtractCategory(e) == ExtractCategory(d) && ExtractName(e) == ExtractName(d);
    assert ExtractPhone(e) == ExtractPhone(d);
  }

  /** The phone number never reaches the one-line summary. */
  lemma InfoOmitsPhone(s: NationalSite, phone: string)
    ensures Info(s.(phone := phone)) == Info(s)
  {
  }
}
