/** The Basketball-Reference leaders index: the anchors whose href is a leaders page,
    each kept as its stripped text and absolute URL, in document order. */
module Links {
  import opened Wrappers
  import opened Text

  const BaseUrl: string := "https://www.basketball-reference.com"
  const LeadersPrefix: string := "/leaders/"

  /** An anchor with an href, as the HTML parser yields it. */
  datatype Anchor = Anchor(text: string, href: string)

  /** One row of the CSV: "Link Text", "URL". */
  datatype LinkRow = LinkRow(linkText: string, url: string)

  /** The row an anchor produces, if its href is a leaders page. */
  function RowOf(a: Anchor): (r: Option<LinkRow>)
    ensures r.Some? <==> StartsWith(a.href, LeadersPrefix)
    ensures r.Some? ==> r.value.linkText == Strip(a.text)
    ensures r.Some? ==> StartsWith(r.value.url, BaseUrl + LeadersPrefix) && r.value.url[|BaseUrl|..] == a.href
  {
    if StartsWith(a.href, LeadersPrefix) then
      var url := BaseUrl + a.href;
      assert url[..|BaseUrl|] == BaseUrl && url[|BaseUrl|..] == a.href;
      assert url[..|BaseUrl + LeadersPrefix|] == BaseUrl + LeadersPrefix by {
        assert url[|BaseUrl|..][..|LeadersPrefix|] == LeadersPrefix;
      }
      Some(LinkRow(Strip(a.text), url))
    else None
  }

  /** The rows of the kept anchors, in document order. */
  function LeaderLinks(anchors: seq<Anchor>): (rows: seq<LinkRow>)
    ensures |rows| <= |anchors|
  {
    if |anchors| == 0 then []
    else
      var n := |anchors| - 1;
      LeaderLinks(anchors[..n]) + (match RowOf(anchors[n]) case Some(r) => [r] case None => [])
  }

  /** Order is kept: the rows of two stretches of the page are the rows of the first
      followed by those of the second. */
  lemma {:induction false} LeaderLinksAppend(a: seq<Anchor>, b: seq<Anchor>)
    ensures LeaderLinks(a + b) == LeaderLinks(a) + LeaderLinks(b)
    decreases |b|
  {
    if |b| == 0 {
      assert a + b == a;
    } else {
      var n := |b| - 1;
      assert (a + b)[..|a + b| - 1] == a + b[..n];
      LeaderLinksAppend(a, b[..n]);
    }
  }

  /** Every row is a leaders URL under the site, from one of the anchors. */
  lemma {:induction false} LeaderLinksSound(anchors: seq<Anchor>)
    ensures forall row :: row in LeaderLinks(anchors) ==>
      StartsWith(row.url, BaseUrl + LeadersPrefix) && exists a :: a in anchors && RowOf(a) == Some(row)
  {
    if |anchors| > 0 {
      var n := |anchors| - 1;
      LeaderLinksSound(anchors[..n]);
      assert forall a :: a in anchors[..n] ==> a in anchors;
    }
  }

  /** An anchor with a leaders href always yields its row. */
  lemma {:induction false} LeaderLinksComplete(anchors: seq<Anchor>, i: nat)
    requires i < |anchors| && StartsWith(anchors[i].href, LeadersPrefix)
    ensures RowOf(anchors[i]).value in LeaderLinks(anchors)
  {
    var n := |anchors| - 1;
    var row := RowOf(anchors[i]).value;
    var before := LeaderLinks(anchors[..n]);
    if i < n {
      assert anchors[..n][i] == anchors[i];
      LeaderLinksComplete(anchors[..n], i);
      assert row in before;
    } else {
      assert LeaderLinks(anchors) == before + [row];
    }
  }

  /** The link loop, appending one row per kept anchor. */
  method CollectLinks(anchors: seq<Anchor>) returns (data: seq<LinkRow>)
    ensures data == LeaderLinks(anchors)
  {
    data := [];
    for i := 0 to |anchors|
      invariant data == LeaderLinks(anchors[..i])
    {
      assert anchors[..i + 1][..i] == anchors[..i];
      var text := Strip(anchors[i].text);
      var href := anchors[i].href;
      if StartsWith(href, LeadersPrefix) {
        data := data + [LinkRow(text, BaseUrl + href)];
      }
    }
    assert anchors[..|anchors|] == anchors;
  }

  /** The whole script on the page's status code and anchors: the CSV rows, or None (no
      CSV is written) when the status is not 200. */
  method GetLinks(status: int, anchors: seq<Anchor>) returns (csv: Option<seq<LinkRow>>)
    ensures csv.None? <==> status != 200
    ensures csv.Some? ==> csv.value == LeaderLinks(anchors)
  {
    if status == 200 {
      var data := CollectLinks(anchors);
      csv := Some(data);
    } else {
      csv := None;
    }
  }
}
