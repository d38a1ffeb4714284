/** The site a crawl sees is the server's files: every page it comes to can be asked for by name. */
module CrawlOverHttp {
  import opened Wrappers
  import opened CText
  import opened Sockets
  import opened LinkScan
  import opened Http
  import opened CrawlMachine
  import opened CrawlInvariants
  import opened CrawlTheorems

  function SiteOf(files: string -> File, rootDir: string): Site {
    (page: Page) => var file := files(rootDir + "/" + page); Reply(Code(file), Message(file))
  }

  /** In plain terms: the site's reply for a page is what is served for the file under the root directory. */
  lemma {:induction false} SiteOfPlainly(files: string -> File, rootDir: string, page: Page, code: int, status: string,
                                         text: string)
    requires Serves(files(rootDir + "/" + page), code, status, text)
    ensures SiteOf(files, rootDir)(page) == Reply(code, text)
  {
    ServesExactly(files(rootDir + "/" + page), code, status, text);
  }

  /** What comes back for a page, through both ends' printing and parsing, is the site's reply. */
  lemma {:induction false} FetchGivesReply(files: string -> File, rootDir: string, page: Page, date: string)
    requires Askable(page) && OneLine(date)
    requires |SiteOf(files, rootDir)(page).body| < INT_MAX
    ensures Asked(page).Some?
    ensures var request := ParseRequest(Asked(page).value, rootDir);
            && request.Named?
            && var reply := SiteOf(files, rootDir)(page);
               ParseAnswer(PrintAnswer(files(request.path), date)) == Got(reply.code, reply.body, "")
  {
    FetchRoundTrip(page, rootDir, files, date);
  }

  lemma {:induction false} LinkOfLine(line: string, link: string)
    requires link in LineLinks(line)
    ensures '"' !in link && forall c :: c in link ==> c in line
  {
    assert link == line[9..][..Find(line[9..], '"')];
  }

  /** A link has no newline, no quote, and no character its page does not have. */
  lemma {:induction false} LinksAreClean(body: string, link: string)
    requires link in Links(body)
    ensures '\n' !in link && '"' !in link
    ensures forall c :: c in link ==> c in body
    decreases |body|
  {
    hide LineLinks, Find;
    var n := Find(body, '\n');
    if link in LineLinks(body[..n]) {
      LinkOfLine(body[..n], link);
    } else {
      LinksAreClean(body[n + 1..], link);
    }
  }

  /** A link of a page that the server sends can be asked for exactly if it has no CR and is not too long. */
  lemma {:induction false} OutLinkIsAskable(files: string -> File, rootDir: string, page: Page, link: Page)
    requires link in OutLinks(SiteOf(files, rootDir), page)
    ensures Askable(link) <==> '\r' !in link && |link| <= LONGEST_PAGE
  {
    var file := files(rootDir + "/" + page);
    assert SiteOf(files, rootDir)(page) == Reply(Code(file), Message(file));
    assert file.Readable?;
    LinksAreClean(CStr(file.content), link);
    assert '\n' !in link && NUL !in link;
    if '\r' !in link {
      forall i | 0 <= i < |link| ensures !EndsLine(link[i]) {
        assert link[i] in link;
      }
    } else {
      var i :| 0 <= i < |link| && link[i] == '\r';
      assert EndsLine(link[i]);
    }
  }

  /** If the start can be asked for, and so can every link of a page one can reach, then so can all of these pages. */
  lemma {:induction false} PathIsAskable(site: Site, start: Page, path: seq<Page>)
    requires Askable(start)
    requires forall p, link :: Reachable(site, start, p) && link in OutLinks(site, p) ==> Askable(link)
    requires IsPath(site, path) && |path| > 0 && path[0] == start
    ensures Askable(path[|path| - 1])
  {
    hide Askable, OutLinks;
    if |path| > 1 {
      var n := |path| - 2;
      var front := path[..n + 1];
      forall i | 0 <= i < n ensures front[i + 1] in OutLinks(site, front[i]) {
        assert path[i + 1] in OutLinks(site, path[i]);
      }
      assert IsPath(site, front) && front[n] == path[n];
      assert Reachable(site, start, path[n]);
      assert path[n + 1] in OutLinks(site, path[n]);
    }
  }

  /** No link of a page one can reach has a CR or is too long. */
  ghost predicate LinksFit(site: Site, start: Page) {
    forall p, link :: Reachable(site, start, p) && link in OutLinks(site, p) ==>
      '\r' !in link && |link| <= LONGEST_PAGE
  }

  /** All pages one can reach can be asked for exactly if the start can and no link on the way has a CR or is too
      long. */
  lemma {:induction false} ReachableIsAskable(files: string -> File, rootDir: string, start: Page)
    ensures var site := SiteOf(files, rootDir);
            (forall page :: Reachable(site, start, page) ==> Askable(page))
            <==> Askable(start) && LinksFit(site, start)
  {
    hide Askable, OutLinks, Reachable;
    var site := SiteOf(files, rootDir);
    if forall page :: Reachable(site, start, page) ==> Askable(page) {
      ReachableStart(site, start);
      forall p, link | Reachable(site, start, p) && link in OutLinks(site, p)
        ensures '\r' !in link && |link| <= LONGEST_PAGE
      {
        ReachableNext(site, start, p, link);
        OutLinkIsAskable(files, rootDir, p, link);
      }
    } else if Askable(start) && LinksFit(site, start) {
      LinksFitAskable(files, rootDir, start);
    }
  }

  lemma {:induction false} LinksFitAskable(files: string -> File, rootDir: string, start: Page)
    requires Askable(start) && LinksFit(SiteOf(files, rootDir), start)
    ensures forall page :: Reachable(SiteOf(files, rootDir), start, page) ==> Askable(page)
  {
    hide Askable, OutLinks;
    var site := SiteOf(files, rootDir);
    forall p, link | Reachable(site, start, p) && link in OutLinks(site, p) ensures Askable(link) {
      OutLinkIsAskable(files, rootDir, p, link);
    }
    forall page | Reachable(site, start, page) ensures Askable(page) {
      var path :| IsPath(site, path) && |path| > 0 && path[0] == start && path[|path| - 1] == page;
      PathIsAskable(site, start, path);
    }
  }

  /** If so, then in every state of every run what comes back for a page that a thread is fetching is the reply the
      machine takes it for, unless the text is too long. */
  lemma {:induction false} CrawlIsServed(files: string -> File, rootDir: string, start: Page, n: nat,
                                         steps: seq<Step>, s: State, t: nat, date: string)
    requires Askable(start) && LinksFit(SiteOf(files, rootDir), start) && OneLine(date)
    requires Run(SiteOf(files, rootDir), Init(start, n), steps) == Some(s)
    requires t < |s.threads| && s.threads[t].Fetching?
    requires |SiteOf(files, rootDir)(s.threads[t].page).body| < INT_MAX
    ensures Asked(s.threads[t].page).Some?
    ensures var request := ParseRequest(Asked(s.threads[t].page).value, rootDir);
            && request.Named?
            && var reply := SiteOf(files, rootDir)(s.threads[t].page);
               ParseAnswer(PrintAnswer(files(request.path), date)) == Got(reply.code, reply.body, "")
  {
    hide Askable, Reachable, ParseRequest, ParseAnswer, PrintAnswer, LinksFit;
    var site, page := SiteOf(files, rootDir), s.threads[t].page;
    InvAlways(site, start, n, steps);
    assert IsBusy(s.threads[t]) && Known(s, page);
    LinksFitAskable(files, rootDir, start);
    FetchGivesReply(files, rootDir, page, date);
  }

  /** A file is answered unless it can be read and has an anchor that is not closed. */
  lemma {:induction false} AnsweredFile(files: string -> File, rootDir: string, page: Page)
    ensures var file := files(rootDir + "/" + page);
            Answered(SiteOf(files, rootDir)(page)) <==> (file.Readable? ==> Closed(CStr(file.content)))
  {
  }

  /** So the detector can fire exactly if finitely many pages can be reached and every file among them that can be read
      has all its anchors closed. */
  lemma {:induction false} CrawlOfFilesEndsExactly(files: string -> File, rootDir: string, start: Page, n: nat)
    requires n > 0
    ensures var site := SiteOf(files, rootDir);
            (exists steps :: Ends(site, start, n, steps)) <==>
            && (forall page :: Reachable(site, start, page) ==>
                  var file := files(rootDir + "/" + page);
                  file.Readable? ==> Closed(CStr(file.content)))
            && (exists pages :: Lists(site, start, pages))
  {
    hide Lists, Ends, Reachable, Answered, Closed;
    var site := SiteOf(files, rootDir);
    forall page ensures var file := files(rootDir + "/" + page);
                        Answered(site(page)) <==> (file.Readable? ==> Closed(CStr(file.content)))
    {
      AnsweredFile(files, rootDir, page);
    }
    CrawlEndsExactly(site, start, n);
  }
}
