/**
 * The documentation gate's reachability rule: a worklist kept in two space-separated strings,
 * against reachability over chains of links.
 */
module DocGate {
  import opened Sequences

  const ROOT: string := "CLAUDE.md"

  /** The characters the shell splits words at. */
  predicate Blank(c: char) {
    c == ' ' || c == '\t' || c == '\n'
  }

  /** The characters that make the shell read a word as a file name pattern. */
  predicate Pattern(c: char) {
    c == '*' || c == '?' || c == '['
  }

  /** A file name the shell keeps as one word. */
  predicate Word(s: string) {
    s != "" && forall i :: 0 <= i < |s| ==> !Blank(s[i]) && !Pattern(s[i])
  }

  /** The existing files and the targets each links to, in order; targets need not exist. */
  type Links = map<string, seq<string>>

  predicate WordLinks(links: Links) {
    forall f, i :: f in links && 0 <= i < |links[f]| ==> Word(links[f][i])
  }

  // ---------------------------------------------------------------- reachability

  /** A chain of links from `root` through existing files. */
  predicate Chain(links: Links, root: string, path: seq<string>) {
    && path != [] && path[0] == root
    && forall i :: 0 <= i < |path| - 1 ==> path[i] in links && path[i + 1] in links[path[i]]
  }

  ghost predicate Reachable(links: Links, root: string, f: string) {
    exists path :: Chain(links, root, path) && path[|path| - 1] == f
  }

  lemma RootReachable(links: Links)
    ensures Reachable(links, ROOT, ROOT)
  {
    assert Chain(links, ROOT, [ROOT]) && [ROOT][|[ROOT]| - 1] == ROOT;
  }

  lemma LinkReachable(links: Links, f: string, l: string)
    requires Reachable(links, ROOT, f) && f in links && l in links[f]
    ensures Reachable(links, ROOT, l)
  {
    var path :| Chain(links, ROOT, path) && path[|path| - 1] == f;
    var longer := path + [l];
    assert Chain(links, ROOT, longer) && longer[|longer| - 1] == l;
  }

  /** A set that holds the root and every link target of its existing members. */
  predicate Closed(links: Links, names: seq<string>) {
    && ROOT in names
    && forall f, i :: f in names && f in links && 0 <= i < |links[f]| ==> links[f][i] in names
  }

  lemma {:induction false} ChainStaysInside(links: Links, names: seq<string>, path: seq<string>)
    requires Closed(links, names) && Chain(links, ROOT, path)
    ensures path[|path| - 1] in names
  {
    if |path| > 1 {
      var init := path[..|path| - 1];
      assert Chain(links, ROOT, init);
      ChainStaysInside(links, names, init);
      var f := init[|init| - 1];
      assert f == path[|path| - 2] && path[|path| - 2 + 1] in links[f];
      var i :| 0 <= i < |links[f]| && links[f][i] == path[|path| - 1];
    }
  }

  // ---------------------------------------------------------------- words in strings

  /** The shell's split into words. */
  function Words(s: string): seq<string> {
    if s == "" then []
    else if Blank(s[0]) then Words(s[1..])
    else
      var rest := Words(s[1..]);
      if |s| == 1 || Blank(s[1]) then [[s[0]]] + rest
      else if rest == [] then [[s[0]]] else [[s[0]] + rest[0]] + rest[1..]
  }

  /** "$*": the words with a space between. */
  function Spaced(ws: seq<string>): string {
    if ws == [] then ""
    else if |ws| == 1 then ws[0]
    else Spaced(ws[..|ws| - 1]) + " " + ws[|ws| - 1]
  }

  lemma {:induction false} WordsOfWord(w: string)
    requires Word(w)
    ensures Words(w) == [w]
  {
    if |w| > 1 {
      WordsOfWord(w[1..]);
      assert [w[0]] + w[1..] == w;
    } else {
      assert [w[0]] == w;
    }
  }

  lemma {:induction false} WordsAppend(s: string, w: string)
    requires Word(w)
    ensures Words(s + " " + w) == Words(s) + [w]
  {
    var t := s + " " + w;
    if s == "" {
      WordsOfWord(w);
      assert t[1..] == w;
    } else {
      assert t[1..] == s[1..] + " " + w;
      WordsAppend(s[1..], w);
      if !Blank(s[0]) && |s| > 1 && !Blank(s[1]) {
        WordsNotEmpty(s[1..]);
      }
    }
  }

  lemma WordsNotEmpty(s: string)
    requires s != "" && !Blank(s[0])
    ensures Words(s) != []
  {
  }

  lemma {:induction false} WordsOfSpaced(ws: seq<string>)
    requires forall i :: 0 <= i < |ws| ==> Word(ws[i])
    ensures Words(Spaced(ws)) == ws
    ensures Spaced(ws) == "" <==> ws == []
  {
    if |ws| == 1 {
      WordsOfWord(ws[0]);
    } else if |ws| > 1 {
      WordsOfSpaced(ws[..|ws| - 1]);
      WordsAppend(Spaced(ws[..|ws| - 1]), ws[|ws| - 1]);
    }
  }

  /** The visited string: every name with a space before and after. */
  function Listed(names: seq<string>): string {
    if names == [] then " " else Listed(names[..|names| - 1]) + names[|names| - 1] + " "
  }

  predicate Occurs(part: string, s: string, i: int) {
    0 <= i && i + |part| <= |s| && s[i..i + |part|] == part
  }

  /** The shell's `*part*` pattern. */
  predicate Contains(s: string, part: string) {
    exists i :: 0 <= i <= |s| && Occurs(part, s, i)
  }

  lemma ListedEndsInSpace(names: seq<string>)
    ensures Listed(names) != "" && Listed(names)[|Listed(names)| - 1] == ' '
  {
  }

  /** Looking for " name " in the string is looking for the name in the list. */
  lemma {:induction false} ContainsIffListed(names: seq<string>, w: string)
    requires Word(w) && forall i :: 0 <= i < |names| ==> Word(names[i])
    ensures Contains(Listed(names), " " + w + " ") <==> w in names
  {
    if names == [] {
      forall i | 0 <= i <= |Listed(names)|
        ensures !Occurs(" " + w + " ", Listed(names), i)
      {
      }
    } else {
      var init, last := names[..|names| - 1], names[|names| - 1];
      ContainsIffListed(init, w);
      ListedEndsInSpace(init);
      assert names == init + [last];
      if w == last {
        assert Occurs(" " + w + " ", Listed(names), |Listed(init)| - 1);
      }
      if w in init {
        var i :| 0 <= i <= |Listed(init)| && Occurs(" " + w + " ", Listed(init), i);
        OccursLonger(" " + w + " ", Listed(init), last + " ", i);
        assert Listed(names) == Listed(init) + (last + " ");
        assert Contains(Listed(names), " " + w + " ");
      }
      if Contains(Listed(names), " " + w + " ") {
        var i :| 0 <= i <= |Listed(names)| && Occurs(" " + w + " ", Listed(names), i);
        OccursInLast(Listed(init), last, w, i);
        if Occurs(" " + w + " ", Listed(init), i) {
          assert Contains(Listed(init), " " + w + " ");
        }
      }
    }
  }

  lemma OccursLonger(part: string, s: string, more: string, i: int)
    requires Occurs(part, s, i)
    ensures Occurs(part, s + more, i)
  {
    assert (s + more)[i..i + |part|] == s[i..i + |part|];
  }

  /** An occurrence of a spaced word lies in the front, or is the last word. */
  lemma OccursInLast(front: string, last: string, w: string, i: int)
    requires front != "" && front[|front| - 1] == ' ' && Word(last) && Word(w)
    requires Occurs(" " + w + " ", front + last + " ", i)
    ensures Occurs(" " + w + " ", front, i) || w == last
  {
    var s, part := front + last + " ", " " + w + " ";
    var end := i + |part| - 1;
    assert s[i] == part[0] == ' ' && s[end] == part[|part| - 1] == ' ';
    forall k | i < k < end
      ensures s[k] != ' '
    {
      assert s[k] == part[k - i] == w[k - i - 1];
    }
    if end < |front| {
      assert s[i..i + |part|] == front[i..i + |part|];
    } else {
      assert s[|front| - 1] == ' ';
      assert forall k :: |front| <= k < |s| - 1 ==> s[k] == last[k - |front|] && s[k] != ' ';
      assert end == |s| - 1 && i == |front| - 1;
      assert w == part[1..|part| - 1] == s[i + 1..end] == last;
    }
  }

  // ---------------------------------------------------------------- the worklist

  /** All names that can ever be listed. */
  function Universe(links: Links): set<string> {
    {ROOT} + set f, i | f in links && 0 <= i < |links[f]| :: links[f][i]
  }

  function Names(names: seq<string>): set<string> {
    set n | n in names
  }

  predicate Exempt(f: string) {
    f == "AGENTS.md" || f == "AGENT.md"
  }

  /** The listed names are words, reachable, and drawn from the graph. */
  ghost predicate Sound(links: Links, names: seq<string>) {
    && Names(names) <= Universe(links)
    && ROOT in names
    && forall n :: n in names ==> Word(n) && Reachable(links, ROOT, n)
  }

  /** Every listed name is still to be read, or its links are listed. */
  predicate Expanded(links: Links, names: seq<string>, todo: seq<string>) {
    forall f, i :: f in names && f !in todo && f in links && 0 <= i < |links[f]| ==> links[f][i] in names
  }

  /** From `before` on, the worklist took up exactly the newly listed names, in order. */
  ghost predicate Grown(links: Links, before: seq<string>, names: seq<string>, queue: string, queue': string) {
    && before <= names
    && Words(queue') == Words(queue) + names[|before|..]
    && (queue' == "" <==> queue == "" && names == before)
    && Shrunk(links, before, names)
  }

  /** Newly listed names leave fewer names to list. */
  ghost predicate Shrunk(links: Links, before: seq<string>, names: seq<string>) {
    names != before ==> Universe(links) - Names(names) < Universe(links) - Names(before)
  }

  /** Lists and queues one link target, unless it is listed already. */
  method ListLink(links: Links, f: string, l: string, queue: string, visited: string, ghost names: seq<string>)
      returns (queue': string, visited': string, ghost names': seq<string>)
    requires WordLinks(links) && f in links && f in names && l in links[f] && Sound(links, names)
    requires visited == Listed(names)
    ensures Sound(links, names') && visited' == Listed(names')
    ensures Grown(links, names, names', queue, queue')
    ensures l in names'
  {
    ContainsIffListed(names, l);
    if Contains(visited, " " + l + " ") {
      assert names[|names|..] == [];
      return queue, visited, names;
    }
    LinkReachable(links, f, l);
    WordsAppend(queue, l);
    OneMore(names, l, Universe(links));
    visited' := visited + l + " ";
    queue' := queue + " " + l;
    names' := names + [l];
    assert names'[|names|..] == [l];
  }

  lemma TailsJoin(a: seq<string>, b: seq<string>, c: seq<string>)
    requires a <= b <= c
    ensures c[|a|..] == b[|a|..] + c[|b|..]
    ensures a == c ==> a == b == c
  {
  }

  lemma ShrunkTwice(links: Links, a: seq<string>, b: seq<string>, c: seq<string>)
    requires Shrunk(links, a, b) && Shrunk(links, b, c) && a <= b <= c
    ensures Shrunk(links, a, c)
  {
    TailsJoin(a, b, c);
  }

  lemma Joined(p: seq<string>, q: seq<string>, r: seq<string>, one: seq<string>, two: seq<string>)
    requires q == p + one && r == q + two
    ensures r == p + (one + two)
  {
  }

  lemma GrownTwice(links: Links, a: seq<string>, b: seq<string>, c: seq<string>, p: string, q: string, r: string)
    requires Grown(links, a, b, p, q) && Grown(links, b, c, q, r)
    ensures Grown(links, a, c, p, r)
  {
    TailsJoin(a, b, c);
    ShrunkTwice(links, a, b, c);
    Joined(Words(p), Words(q), Words(r), b[|a|..], c[|b|..]);
  }

  /** The first i links of `f` are listed. */
  predicate LinksListed(links: Links, f: string, i: nat, names: seq<string>)
    requires f in links && i <= |links[f]|
  {
    forall j :: 0 <= j < i ==> links[f][j] in names
  }

  lemma OneMoreListed(links: Links, f: string, i: nat, names: seq<string>, more: seq<string>)
    requires f in links && i < |links[f]| && LinksListed(links, f, i, names)
    requires names <= more && links[f][i] in more
    ensures LinksListed(links, f, i + 1, more)
  {
    assert forall n :: n in names ==> n in more;
  }

  /** Reads the links of `f`, listing and queueing those not listed yet. */
  method ReadLinks(links: Links, f: string, queue: string, visited: string, ghost names: seq<string>)
      returns (queue': string, visited': string, ghost names': seq<string>)
    requires WordLinks(links) && f in links && f in names && Sound(links, names)
    requires visited == Listed(names)
    ensures Sound(links, names') && visited' == Listed(names')
    ensures Grown(links, names, names', queue, queue')
    ensures forall i :: 0 <= i < |links[f]| ==> links[f][i] in names'
  {
    queue', visited', names' := queue, visited, names;
    assert names[|names|..] == [];
    for i := 0 to |links[f]|
      invariant Sound(links, names') && visited' == Listed(names')
      invariant Grown(links, names, names', queue, queue')
      invariant LinksListed(links, f, i, names')
    {
      ghost var q, n := queue', names';
      queue', visited', names' := ListLink(links, f, links[f][i], queue', visited', names');
      OneMoreListed(links, f, i, n, names');
      GrownTwice(links, names, n, names', queue, q, queue');
    }
  }

  lemma OneMore(names: seq<string>, l: string, all: set<string>)
    requires l !in names && l in all && Names(names) <= all
    ensures Names(names + [l]) == Names(names) + {l} && Names(names + [l]) <= all
    ensures all - Names(names + [l]) < all - Names(names)
    ensures Listed(names + [l]) == Listed(names) + l + " "
  {
    assert (names + [l])[..|names|] == names;
    assert l in all - Names(names);
  }

  /** Between two turns of the worklist: what is queued is listed, and what is listed is queued or expanded. */
  ghost predicate Scanning(links: Links, names: seq<string>, queue: string) {
    && Sound(links, names)
    && (forall w :: w in Words(queue) ==> w in names)
    && (queue == "" <==> Words(queue) == [])
    && Expanded(links, names, Words(queue))
  }

  lemma RootIsWord()
    ensures Word(ROOT)
  {
  }

  lemma RootWords()
    ensures Words(ROOT) == [ROOT]
  {
    RootIsWord();
    WordsOfWord(ROOT);
  }

  lemma Starts(links: Links)
    ensures Scanning(links, [ROOT], ROOT)
  {
    RootReachable(links);
    RootIsWord();
    RootWords();
    assert forall n :: n in [ROOT] ==> n == ROOT;
  }

  lemma ListedOne(w: string)
    ensures Listed([w]) == " " + w + " "
  {
    assert [w][..0] == [];
  }

  /** One turn: takes the first queued name and reads its links if the file exists. */
  method TakeFirst(links: Links, queue: string, visited: string, ghost names: seq<string>)
      returns (queue': string, visited': string, ghost names': seq<string>)
    requires WordLinks(links) && Scanning(links, names, queue) && visited == Listed(names) && queue != ""
    ensures Scanning(links, names', queue') && visited' == Listed(names')
    ensures Shrunk(links, names, names') && (names' == names ==> |Words(queue')| < |Words(queue)|)
  {
    var words := Words(queue);
    var f := words[0];
    assert f in words;
    assert forall w :: w in words <==> w == f || w in words[1..];
    WordsOfSpaced(words[1..]);
    queue', visited', names' := Spaced(words[1..]), visited, names;
    if f in links {
      queue', visited', names' := ReadLinks(links, f, queue', visited', names');
      ExpandedAfter(links, names, names', words, f);
      assert names' == names ==> names'[|names|..] == [];
      assert forall w :: w in names'[|names|..] ==> w in names';
    }
  }

  /** The documents the rule is about: not an agent entrypoint, and on no chain of links from CLAUDE.md. */
  ghost predicate Missing(links: Links, f: string) {
    f != "AGENTS.md" && f != "AGENT.md" && !Reachable(links, "CLAUDE.md", f)
  }

  /** The rule: which tracked documents are reported. */
  method Unreachable(links: Links, tracked: seq<string>) returns (reported: seq<string>)
    requires WordLinks(links) && forall i :: 0 <= i < |tracked| ==> Word(tracked[i])
    ensures Filtered(tracked, f => Missing(links, f), reported)
    ensures forall f :: f == "AGENTS.md" || f == "AGENT.md" || Reachable(links, "CLAUDE.md", f) ==> f !in reported
    ensures forall f :: f != "AGENTS.md" && f != "AGENT.md" && !Reachable(links, "CLAUDE.md", f) ==>
      multiset(reported)[f] == multiset(tracked)[f]
  {
    var queue, visited := ROOT, " " + ROOT + " ";
    ghost var names := [ROOT];
    Starts(links);
    ListedOne(ROOT);
    while queue != ""
      invariant Scanning(links, names, queue) && visited == Listed(names)
      decreases Universe(links) - Names(names), |Words(queue)|
    {
      queue, visited, names := TakeFirst(links, queue, visited, names);
    }
    reported := Report(links, tracked, visited, names);
    ReportCounts(links, tracked, reported);
  }

  lemma ExpandedAfter(links: Links, before: seq<string>, names: seq<string>, words: seq<string>, f: string)
    requires words != [] && f == words[0] && before <= names && f in links
    requires Expanded(links, before, words)
    requires forall i :: 0 <= i < |links[f]| ==> links[f][i] in names
    ensures Expanded(links, names, words[1..] + names[|before|..])
  {
    assert names == before + names[|before|..];
    forall g, i | g in names && g !in words[1..] + names[|before|..] && g in links && 0 <= i < |links[g]|
      ensures links[g][i] in names
    {
      if g != f {
        assert g in before && g !in words;
        assert links[g][i] in before;
      }
    }
  }

  /** Not reported: an agent entrypoint, or a name in the visited string. */
  predicate Spared(visited: string, f: string) {
    Exempt(f) || Contains(visited, " " + f + " ")
  }

  lemma SparedIff(links: Links, names: seq<string>, visited: string, f: string)
    requires Sound(links, names) && Expanded(links, names, []) && visited == Listed(names) && Word(f)
    ensures Spared(visited, f) <==> !Missing(links, f)
  {
    ContainsIffListed(names, f);
    ListedIffReachable(links, names, f);
  }

  /** The kept names are each reported as often as they are tracked, and no others are. */
  lemma ReportCounts(links: Links, tracked: seq<string>, reported: seq<string>)
    requires Filtered(tracked, f => Missing(links, f), reported)
    ensures forall f :: f == "AGENTS.md" || f == "AGENT.md" || Reachable(links, "CLAUDE.md", f) ==> f !in reported
    ensures forall f :: f != "AGENTS.md" && f != "AGENT.md" && !Reachable(links, "CLAUDE.md", f) ==>
      multiset(reported)[f] == multiset(tracked)[f]
  {
    FilteredCounts(tracked, f => Missing(links, f), reported);
    forall f
      ensures !Missing(links, f) ==> f !in reported
    {
      assert f in reported <==> multiset(reported)[f] > 0;
    }
  }

  /** Reports the tracked documents that are not listed, in their order, each as often as it is tracked. */
  method Report(links: Links, tracked: seq<string>, visited: string, ghost names: seq<string>)
      returns (reported: seq<string>)
    requires Sound(links, names) && Expanded(links, names, []) && visited == Listed(names)
    requires forall i :: 0 <= i < |tracked| ==> Word(tracked[i])
    ensures Filtered(tracked, f => Missing(links, f), reported)
  {
    reported := [];
    ghost var keep := f => Missing(links, f);
    FilteredNone(keep);
    for i := 0 to |tracked|
      invariant Filtered(tracked[..i], keep, reported)
    {
      var f := tracked[i];
      SparedIff(links, names, visited, f);
      FilteredNext(tracked, i, keep, reported);
      if !Spared(visited, f) {
        reported := reported + [f];
      }
    }
    assert tracked[..|tracked|] == tracked;
  }

  /** Once nothing is left to read, listed is reachable. */
  lemma ListedIffReachable(links: Links, names: seq<string>, f: string)
    requires Sound(links, names) && Expanded(links, names, [])
    ensures f in names <==> Reachable(links, ROOT, f)
  {
    assert Closed(links, names);
    if Reachable(links, ROOT, f) {
      var path :| Chain(links, ROOT, path) && path[|path| - 1] == f;
      ChainStaysInside(links, names, path);
    }
  }
}
