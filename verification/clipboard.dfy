/** The text computation behind a row's Copy button: the clipboard's current
    text is split into lines; if one of them looks like a pull-request link of
    this site, the clicked link replaces any line naming the same href and is
    appended as the last line, otherwise the clipboard is replaced by the new
    link line alone. Reading and writing the clipboard are not modelled; the
    current text and the page's origin are parameters. */
module Clipboard {
  import Seqs

  /** `sub` occurs in `s` at some offset (JavaScript's `includes`; the empty
      string occurs everywhere). */
  predicate Contains(s: string, sub: string)
  {
    exists i :: 0 <= i <= |s| - |sub| && OccursAt(s, sub, i)
  }

  predicate OccursAt(s: string, sub: string, i: nat)
  {
    i + |sub| <= |s| && s[i..i + |sub|] == sub
  }

  /** `text.split('\n')`: the maximal newline-free pieces between newlines,
      never an empty list (the empty text is one empty line). */
  function Split(s: string): (lines: seq<string>)
    ensures |lines| >= 1
    ensures forall i :: 0 <= i < |lines| ==> '\n' !in lines[i]
    decreases |s|
  {
    if |s| == 0 then [""]
    else
      var rest := Split(s[1..]);
      if s[0] == '\n' then [""] + rest
      else [[s[0]] + rest[0]] + rest[1..]
  }

  /** `lines.join('\n')`. */
  function Join(lines: seq<string>): string
  {
    if |lines| == 0 then ""
    else if |lines| == 1 then lines[0]
    else lines[0] + "\n" + Join(lines[1..])
  }

  /** Splitting then joining gives the text back. */
  lemma {:induction false} JoinSplit(s: string)
    ensures Join(Split(s)) == s
    decreases |s|
  {
    if |s| > 0 {
      var rest := Split(s[1..]);
      JoinSplit(s[1..]);
      if s[0] == '\n' {
        assert ([""] + rest)[1..] == rest;
      } else {
        var lines := [[s[0]] + rest[0]] + rest[1..];
        assert lines[1..] == rest[1..];
        if |rest| > 1 {
          assert Join(rest) == rest[0] + "\n" + Join(rest[1..]);
        }
      }
      assert s == [s[0]] + s[1..];
    }
  }

  lemma {:induction false} SplitSingle(x: string)
    requires '\n' !in x
    ensures Split(x) == [x]
    decreases |x|
  {
    if |x| > 0 {
      SplitSingle(x[1..]);
      assert x == [x[0]] + x[1..];
    }
  }

  lemma {:induction false} SplitAround(x: string, y: string)
    requires '\n' !in x
    ensures Split(x + "\n" + y) == [x] + Split(y)
    decreases |x|
  {
    var s := x + "\n" + y;
    if |x| == 0 {
      assert s[1..] == y;
    } else {
      assert s[1..] == x[1..] + "\n" + y;
      SplitAround(x[1..], y);
      assert x == [x[0]] + x[1..];
    }
  }

  /** Joining newline-free lines then splitting gives the lines back. */
  lemma {:induction false} SplitJoin(lines: seq<string>)
    requires |lines| >= 1
    requires forall i :: 0 <= i < |lines| ==> '\n' !in lines[i]
    ensures Split(Join(lines)) == lines
    decreases |lines|
  {
    if |lines| == 1 {
      SplitSingle(lines[0]);
    } else {
      SplitJoin(lines[1..]);
      SplitAround(lines[0], Join(lines[1..]));
      assert lines == [lines[0]] + lines[1..];
    }
  }

  /** The line the Copy button adds: link text, a space, then the absolute URL. */
  function PrLink(domain: string, href: string, linkText: string): string
  {
    linkText + " " + domain + href
  }

  /** A line this extension wrote for the current site. */
  predicate IsPrLine(line: string, domain: string)
  {
    Contains(line, "/pull/") && Contains(line, domain)
  }

  predicate IsPrClipboard(text: string, domain: string)
  {
    exists line :: line in Split(text) && IsPrLine(line, domain)
  }

  /** The lines that do not mention `href`, in order. */
  function Without(lines: seq<string>, href: string): seq<string>
  {
    Seqs.Filter(lines, line => !Contains(line, href))
  }

  /** The new clipboard text after copying the link (`href`, `linkText`) on a
      page whose origin is `domain`. */
  function Merge(text: string, domain: string, href: string, linkText: string): (r: string)
    // the new link line always closes the result
    ensures |PrLink(domain, href, linkText)| <= |r|
    ensures r[|r| - |PrLink(domain, href, linkText)|..] == PrLink(domain, href, linkText)
    // a clipboard without a pull-request line of this site is discarded
    ensures !IsPrClipboard(text, domain) ==> r == PrLink(domain, href, linkText)
  {
    var prLink := PrLink(domain, href, linkText);
    if IsPrClipboard(text, domain) then
      var kept := Without(Split(text), href);
      JoinSnoc(kept, prLink);
      Join(kept + [prLink])
    else prLink
  }

  lemma {:induction false} JoinSnoc(lines: seq<string>, last: string)
    ensures Join(lines + [last]) == (if |lines| == 0 then "" else Join(lines) + "\n") + last
    decreases |lines|
  {
    var all := lines + [last];
    if |lines| == 0 {
      assert all == [last];
    } else {
      assert all[1..] == lines[1..] + [last];
      JoinSnoc(lines[1..], last);
      if |lines| == 1 {
        assert all[1..] == [last];
        assert Join(all) == lines[0] + "\n" + last;
      } else {
        assert Join(all) == lines[0] + "\n" + (Join(lines[1..]) + "\n" + last);
        assert Join(lines) == lines[0] + "\n" + Join(lines[1..]);
      }
    }
  }

  lemma ContainsItself(s: string)
    ensures Contains(s, s)
  {
    assert OccursAt(s, s, 0);
  }

  lemma ContainsExtend(a: string, s: string, b: string, sub: string)
    requires Contains(s, sub)
    ensures Contains(a + s + b, sub)
  {
    var i :| 0 <= i <= |s| - |sub| && OccursAt(s, sub, i);
    var j := |a| + i;
    assert (a + s + b)[j..j + |sub|] == s[i..i + |sub|];
    assert OccursAt(a + s + b, sub, j);
  }

  /** The new link line names `href` and the site, and it is a pull-request
      line whenever `href` is a pull-request path. */
  lemma PrLinkMentions(domain: string, href: string, linkText: string)
    ensures Contains(PrLink(domain, href, linkText), href)
    ensures Contains(PrLink(domain, href, linkText), domain)
    ensures Contains(href, "/pull/") ==> IsPrLine(PrLink(domain, href, linkText), domain)
  {
    var l := PrLink(domain, href, linkText);
    ContainsItself(href);
    ContainsExtend(linkText + " " + domain, href, "", href);
    assert linkText + " " + domain + href + "" == l;
    ContainsItself(domain);
    ContainsExtend(linkText + " ", domain, href, domain);
    if Contains(href, "/pull/") {
      ContainsExtend(linkText + " " + domain, href, "", "/pull/");
    }
  }

  /** With newline-free parts, the merged clipboard of a pull-request clipboard
      consists of the old lines that do not mention `href`, in their original
      order, followed by the new link line; it is the only line naming `href`. */
  lemma MergeLines(text: string, domain: string, href: string, linkText: string)
    requires '\n' !in linkText && '\n' !in domain && '\n' !in href
    requires IsPrClipboard(text, domain)
    ensures var lines := Split(Merge(text, domain, href, linkText));
      && lines == Without(Split(text), href) + [PrLink(domain, href, linkText)]
      && (forall line :: line in lines[..|lines| - 1] <==> line in Split(text) && !Contains(line, href))
      && (forall i :: 0 <= i < |lines| ==> (Contains(lines[i], href) <==> i == |lines| - 1))
  {
    var prLink := PrLink(domain, href, linkText);
    var kept := Without(Split(text), href);
    Seqs.FilterMembers(Split(text), line => !Contains(line, href));
    var lines := kept + [prLink];
    assert forall i :: 0 <= i < |lines| ==> '\n' !in lines[i];
    SplitJoin(lines);
    PrLinkMentions(domain, href, linkText);
    assert lines[..|lines| - 1] == kept;
  }

  /** Copying a pull-request link twice in a row leaves the clipboard as the
      first copy left it. */
  lemma MergeIdempotent(text: string, domain: string, href: string, linkText: string)
    requires '\n' !in linkText && '\n' !in domain && '\n' !in href
    requires Contains(href, "/pull/")
    ensures var once := Merge(text, domain, href, linkText);
      Merge(once, domain, href, linkText) == once
  {
    var prLink := PrLink(domain, href, linkText);
    var once := Merge(text, domain, href, linkText);
    PrLinkMentions(domain, href, linkText);
    var lines := Split(once);
    if IsPrClipboard(text, domain) {
      MergeLines(text, domain, href, linkText);
      var kept := Without(Split(text), href);
      assert lines[|lines| - 1] == prLink;
      assert IsPrClipboard(once, domain);
      WithoutNoMention(kept, href);
      Seqs.FilterAppend(kept, [prLink], line => !Contains(line, href));
      assert Without([prLink], href) == [];
      assert Without(lines, href) == kept;
      JoinSplit(once);
    } else {
      SplitSingle(prLink);
      assert lines == [prLink];
      assert IsPrClipboard(once, domain);
      assert Without([prLink], href) == [];
    }
  }

  /** Lines that already avoid `href` are all kept. */
  lemma {:induction false} WithoutNoMention(lines: seq<string>, href: string)
    requires forall i :: 0 <= i < |lines| ==> !Contains(lines[i], href)
    ensures Without(lines, href) == lines
    decreases |lines|
  {
    if |lines| > 0 {
      WithoutNoMention(lines[1..], href);
    }
  }
}
