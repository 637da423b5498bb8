/**
 * Where the two pages read the same transport record or response
 * differently. The map page's sidebar and the introduction page's feed
 * each keep their own rules; these lemmas state where they agree and
 * where they part.
 */
module Variants {
  import opened JsValues
  import opened ApiData
  import CompanyGrouping
  import RefreshControl
  import TransportFeed

  /** Both pages call a record Emitent under the same condition, although
      one defaults a missing role to "" and the other to "unknown". */
  lemma EmitentAgrees(t: TransportRecord)
    ensures CompanyGrouping.IsEmitentRole(t) <==> TransportFeed.ClassifyRole(t.role) == TransportFeed.EmitentBadge
  {
    assert AsciiLower("")  == "";
    assert AsciiLower("unknown")[0] == 'u';
  }

  /** A role that is neither emitent, destinatar nor receptor (a missing
      one included) raises no flag on the map page, while the introduction
      page shows it as Destinatar. */
  lemma UnknownRoleDiffers(t: TransportRecord)
    requires !CompanyGrouping.IsEmitentRole(t) && !CompanyGrouping.IsDestinatarRole(t)
    ensures CompanyGrouping.Aggregate([t], CompanyGrouping.EffectiveName(t)).isEmitent == false
    ensures CompanyGrouping.Aggregate([t], CompanyGrouping.EffectiveName(t)).isDestinatar == false
    ensures TransportFeed.ClassifyRole(t.role) == TransportFeed.DestinatarBadge
  {
    EmitentAgrees(t);
  }

  /** A receptor is a Destinatar on both pages. */
  lemma ReceptorIsDestinatar(t: TransportRecord)
    requires t.role == Some("receptor")
    ensures CompanyGrouping.IsDestinatarRole(t) && !CompanyGrouping.IsEmitentRole(t)
    ensures TransportFeed.ClassifyRole(t.role) == TransportFeed.DestinatarBadge
  {
    assert AsciiLower("receptor") == "receptor";
  }

  /** A record without a company name is filed under "Necunoscut" on the
      map page and shown as "Unknown" on the introduction page. */
  lemma MissingCompanyName(t: TransportRecord)
    requires StrOr(t.companyName, "") == ""
    ensures CompanyGrouping.EffectiveName(t) == CompanyGrouping.UnknownCompany
    ensures TransportFeed.CardOf(t).company == "Unknown"
  {
  }

  /** The two ways of reading `transports`: they agree on an array and on a
      missing field; a `null` body or a truthy non-array value sends the map page
      to its error state, while the introduction page shows an empty feed. */
  lemma TransportsDefaulting(body: TransportsBody)
    ensures body.ObjectBody? && !body.transports.NonArrayValue? ==>
      RefreshControl.TransportsOrFailure(Received(body)) == Some(TransportFeed.TransportsOrEmpty(body))
    ensures body.NullBody? || body.transports.NonArrayValue? ==>
      RefreshControl.TransportsOrFailure(Received(body)) == None &&
      TransportFeed.TransportsOrEmpty(body) == []
  {
  }
}
