/**
 * The body of a review comment: a fixed markdown template filled with a
 * misconfiguration's severity, rule id and message, followed by its
 * reference links.
 */
module CommentRenderer {
  import opened Report

  /** The markdown link written for one reference URL. */
  function Link(url: string): string {
    "[here](" + url + ")"
  }

  /** Separator between two links. */
  const LinkSeparator: string := " and "

  /**
   * The reference list: the links in the order of the URLs, separated by
   * " and ", without trailing punctuation; empty for no URLs.
   */
  function Links(urls: seq<string>): (r: string)
    ensures r == [] <==> urls == []
    decreases |urls|
  {
    if urls == [] then []
    else if |urls| == 1 then Link(urls[0])
    else Links(urls[..|urls| - 1]) + LinkSeparator + Link(urls[|urls| - 1])
  }

  /** Appending a URL to a non-empty list appends " and " and its link. */
  lemma LinksSnoc(us: seq<string>, u: string)
    requires us != []
    ensures Links(us + [u]) == Links(us) + LinkSeparator + Link(u)
  {
  }

  /** Two non-empty lists of links joined with " and " are the links of both lists. */
  lemma {:induction false} LinksConcat(us: seq<string>, vs: seq<string>)
    requires us != [] && vs != []
    ensures Links(us + vs) == Links(us) + LinkSeparator + Links(vs)
    decreases |vs|
  {
    var init, last := vs[..|vs| - 1], vs[|vs| - 1];
    assert vs == init + [last];
    if init == [] {
      LinksSnoc(us, last);
    } else {
      calc {
        Links(us + vs);
        { assert us + vs == (us + init) + [last]; }
        Links((us + init) + [last]);
        { LinksSnoc(us + init, last); }
        Links(us + init) + LinkSeparator + Link(last);
        { LinksConcat(us, init); }
        Links(us) + LinkSeparator + Links(init) + LinkSeparator + Link(last);
        { LinksSnoc(init, last); }
        Links(us) + LinkSeparator + Links(vs);
      }
    }
  }

  /** Read from the front: the first link, then " and " and the links of the rest. */
  lemma LinksCons(u: string, rest: seq<string>)
    ensures Links([u] + rest) == Link(u) + (if rest == [] then [] else LinkSeparator + Links(rest))
  {
    if rest != [] {
      LinksConcat([u], rest);
    }
  }

  lemma LinksOfNone()
    ensures Links([]) == ""
  {
  }

  lemma LinksOfTwo()
    ensures Links(["a", "b"]) == "[here](a) and [here](b)"
  {
  }

  /** formatUrls: builds the list link by link, adding " and " once the list is non-empty. */
  method FormatUrls(urls: seq<string>) returns (urlList: string)
    ensures urlList == Links(urls)
  {
    urlList := "";
    for i := 0 to |urls|
      invariant urlList == Links(urls[..i])
    {
      if urlList != "" {
        urlList := urlList + LinkSeparator;
      }
      urlList := urlList + Link(urls[i]);
      assert urls[..i + 1][..i] == urls[..i];
    }
    assert urls[..|urls|] == urls;
  }

  const Opening: string := ":warning: trivy found a **"
  const AfterSeverity: string := "** severity issue from rule `"
  const AfterId: string := "`:\n> "
  const AfterMessage: string := "\n\nMore information available "

  /**
   * The comment template of generateErrorMessage, filled with a severity, a
   * rule id, a message and a reference list, all inserted as given.
   */
  function Template(severity: string, id: string, message: string, links: string): string {
    Opening + severity + AfterSeverity + id + AfterId + message + AfterMessage + links
  }

  /** generateErrorMessage: the template filled with the misconfiguration's fields and links. */
  function ErrorMessage(m: Misconfiguration): string {
    Template(m.severity, m.id, m.message, Links(m.references))
  }

  /** The template opens with the warning marker and then the severity, as given. */
  lemma TemplateSeverity(severity: string, id: string, message: string, links: string)
    ensures var body := Template(severity, id, message, links);
      && body[..|Opening|] == Opening
      && body[|Opening|..|Opening| + |severity|] == severity
  {
  }

  /** The rule id follows the severity and its fixed lead-in, as given. */
  lemma TemplateId(severity: string, id: string, message: string, links: string)
    ensures var body, i := Template(severity, id, message, links), |Opening| + |severity| + |AfterSeverity|;
      && |body| >= i + |id|
      && body[i - |AfterSeverity|..i] == AfterSeverity
      && body[i..i + |id|] == id
  {
  }

  /** The message follows the rule id and its fixed lead-in, as given. */
  lemma TemplateMessage(severity: string, id: string, message: string, links: string)
    ensures var body, m := Template(severity, id, message, links), |Opening| + |severity| + |AfterSeverity| + |id| + |AfterId|;
      && |body| >= m + |message|
      && body[m - |AfterId|..m] == AfterId
      && body[m..m + |message|] == message
  {
  }

  /** The body ends with "More information available " and the reference list, and nothing else. */
  lemma TemplateEnd(severity: string, id: string, message: string, links: string)
    ensures var body, e := Template(severity, id, message, links),
                           |Opening| + |severity| + |AfterSeverity| + |id| + |AfterId| + |message|;
      && |body| == e + |AfterMessage| + |links|
      && body[e..] == AfterMessage + links
  {
  }

  /** A comment body with no references ends with the bare lead-in. */
  lemma ErrorMessageWithoutReferences(m: Misconfiguration)
    requires m.references == []
    ensures ErrorMessage(m)[|ErrorMessage(m)| - |AfterMessage|..] == AfterMessage
  {
  }

  /** generateErrorMessage, with the reference list built by formatUrls. */
  method GenerateErrorMessage(m: Misconfiguration) returns (body: string)
    ensures body == ErrorMessage(m)
  {
    var urlList := FormatUrls(m.references);
    body := Opening + m.severity + AfterSeverity + m.id + AfterId + m.message + AfterMessage + urlList;
  }
}
