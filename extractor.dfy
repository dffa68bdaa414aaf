/**
 The link extractor, `links` in main.go. The HTML tokenizer is not modelled:
 its output is given as a sequence of tokens, and the end of that sequence
 plays the part of the end-of-input error token.
 */
module Extractor {
  import opened Strings
  import opened Classifier

  datatype Attribute = Attribute(key: string, val: string)

  /**
   The tokenizer's output. Only start tags are looked at; a self-closing tag
   (`<a href="..."/>`) is a distinct token kind and is passed over like text.
   */
  datatype Token =
    | ErrorToken
    | StartTag(data: string, attr: seq<Attribute>)
    | SelfClosingTag(data: string, attr: seq<Attribute>)
    | OtherToken

  /** What one attribute contributes: its value, if it is an `href` the classifier accepts. */
  function HrefOf(a: Attribute, recurse: bool): seq<string> {
    if a.key == "href" && ValidName(a.val, recurse) then [a.val] else []
  }

  /** The accepted `href` values of one attribute list, in attribute order. */
  function Hrefs(attrs: seq<Attribute>, recurse: bool): seq<string> {
    if attrs == [] then [] else HrefOf(attrs[0], recurse) + Hrefs(attrs[1..], recurse)
  }

  /** What one token other than an error token contributes: the accepted hrefs of an anchor start tag. */
  function LinksOf(t: Token, recurse: bool): seq<string> {
    if t.StartTag? && t.data == "a" then Hrefs(t.attr, recurse) else []
  }

  /** What `links` returns for a token stream: the accepted anchor hrefs up to the first error token. */
  function Extract(toks: seq<Token>, recurse: bool): seq<string> {
    if toks == [] || toks[0].ErrorToken? then []
    else LinksOf(toks[0], recurse) + Extract(toks[1..], recurse)
  }

  /** `links(r, recurse)`, the tokenizer loop with its inner loop over a tag's attributes. */
  method Links(toks: seq<Token>, recurse: bool) returns (urls: seq<string>)
    ensures urls == Extract(toks, recurse)
  {
    urls := [];
    var n := 0;
    while n < |toks|
      invariant 0 <= n <= |toks|
      invariant urls + Extract(toks[n..], recurse) == Extract(toks, recurse)
    {
      var tok := toks[n];
      assert toks[n..][0] == tok && toks[n..][1..] == toks[n + 1..];
      if tok.ErrorToken? {
        assert urls + [] == urls;
        return;
      }
      ghost var before := urls;
      if tok.StartTag? && tok.data == "a" {
        urls := AppendHrefs(urls, tok.attr, recurse);
      } else {
        assert urls == before + [];
      }
      Assoc(before, LinksOf(tok, recurse), Extract(toks[n + 1..], recurse));
      n := n + 1;
    }
    assert toks[n..] == [];
    assert urls + [] == urls;
  }

  /** The loop of `links` over the attributes of an anchor tag, appending each accepted `href` to `urls`. */
  method AppendHrefs(urls: seq<string>, attrs: seq<Attribute>, recurse: bool) returns (r: seq<string>)
    ensures r == urls + Hrefs(attrs, recurse)
  {
    r := urls;
    var k := 0;
    while k < |attrs|
      invariant 0 <= k <= |attrs|
      invariant r + Hrefs(attrs[k..], recurse) == urls + Hrefs(attrs, recurse)
    {
      var a := attrs[k];
      assert attrs[k..][0] == a && attrs[k..][1..] == attrs[k + 1..];
      ghost var sofar := r;
      if a.key == "href" {
        var ok := ValidNameScan(a.val, recurse);
        if ok {
          r := r + [a.val];
        }
      }
      assert r == sofar + HrefOf(a, recurse);
      Assoc(sofar, HrefOf(a, recurse), Hrefs(attrs[k + 1..], recurse));
      k := k + 1;
    }
    assert attrs[k..] == [];
    assert r + [] == r;
  }

  /** The accepted hrefs of two attribute lists, one after the other, are those of each list in order. */
  lemma {:induction false} HrefsAppend(a: seq<Attribute>, b: seq<Attribute>, recurse: bool)
    decreases |a|
    ensures Hrefs(a + b, recurse) == Hrefs(a, recurse) + Hrefs(b, recurse)
  {
    if a == [] {
      assert a + b == b;
    } else {
      assert (a + b)[0] == a[0];
      assert (a + b)[1..] == a[1..] + b;
      calc {
        Hrefs(a + b, recurse);
        HrefOf(a[0], recurse) + Hrefs(a[1..] + b, recurse);
        { HrefsAppend(a[1..], b, recurse); }
        HrefOf(a[0], recurse) + (Hrefs(a[1..], recurse) + Hrefs(b, recurse));
        { Assoc(HrefOf(a[0], recurse), Hrefs(a[1..], recurse), Hrefs(b, recurse)); }
        Hrefs(a, recurse) + Hrefs(b, recurse);
      }
    }
  }

  /** A value is extracted from a tag iff the tag has an `href` attribute with that value and the classifier accepts it. */
  lemma {:induction false} HrefsMembership(attrs: seq<Attribute>, recurse: bool, u: string)
    ensures u in Hrefs(attrs, recurse) <==> Attribute("href", u) in attrs && ValidName(u, recurse)
  {
    if attrs != [] {
      HrefsMembership(attrs[1..], recurse, u);
      assert attrs == [attrs[0]] + attrs[1..];
    }
  }

  /** Every extracted link is one the classifier accepts, and came from an `href` of an anchor start tag. */
  lemma {:induction false} ExtractAccepted(toks: seq<Token>, recurse: bool)
    ensures forall u <- Extract(toks, recurse) :: ValidName(u, recurse)
    ensures forall u <- Extract(toks, recurse) :: exists i :: 0 <= i < |toks| && toks[i].StartTag? && toks[i].data == "a" && Attribute("href", u) in toks[i].attr
  {
    if toks != [] && !toks[0].ErrorToken? {
      ExtractAccepted(toks[1..], recurse);
      forall u <- Extract(toks, recurse)
        ensures ValidName(u, recurse)
        ensures exists i :: 0 <= i < |toks| && toks[i].StartTag? && toks[i].data == "a" && Attribute("href", u) in toks[i].attr
      {
        if u in LinksOf(toks[0], recurse) {
          HrefsMembership(toks[0].attr, recurse, u);
        } else {
          var i :| 0 <= i < |toks[1..]| && toks[1..][i].StartTag? && toks[1..][i].data == "a" && Attribute("href", u) in toks[1..][i].attr;
          assert toks[i + 1] == toks[1..][i];
        }
      }
    }
  }

  /** Before the first error token, extraction distributes over concatenation: document order is kept. */
  lemma {:induction false} ExtractAppend(a: seq<Token>, b: seq<Token>, recurse: bool)
    requires ErrorToken !in a
    decreases |a|
    ensures Extract(a + b, recurse) == Extract(a, recurse) + Extract(b, recurse)
  {
    if a == [] {
      assert a + b == b;
    } else {
      assert (a + b)[0] == a[0];
      assert (a + b)[1..] == a[1..] + b;
      calc {
        Extract(a + b, recurse);
        LinksOf(a[0], recurse) + Extract(a[1..] + b, recurse);
        { ExtractAppend(a[1..], b, recurse); }
        LinksOf(a[0], recurse) + (Extract(a[1..], recurse) + Extract(b, recurse));
        { Assoc(LinksOf(a[0], recurse), Extract(a[1..], recurse), Extract(b, recurse)); }
        Extract(a, recurse) + Extract(b, recurse);
      }
    }
  }

  /** One token other than an error token, followed by the rest of the stream. */
  lemma ExtractCons(t: Token, post: seq<Token>, recurse: bool)
    requires t != ErrorToken
    ensures Extract([t] + post, recurse) == LinksOf(t, recurse) + Extract(post, recurse)
  {
    assert ([t] + post)[0] == t && ([t] + post)[1..] == post;
  }

  /** Nothing after the first error token is examined. */
  lemma ExtractStopsAtError(pre: seq<Token>, post: seq<Token>, recurse: bool)
    requires ErrorToken !in pre
    ensures Extract(pre + [ErrorToken] + post, recurse) == Extract(pre, recurse)
  {
    Assoc(pre, [ErrorToken], post);
    ExtractAppend(pre, [ErrorToken] + post, recurse);
  }

  /** An anchor start tag contributes its accepted hrefs, in place. */
  lemma ExtractAnchor(pre: seq<Token>, attrs: seq<Attribute>, post: seq<Token>, recurse: bool)
    requires ErrorToken !in pre
    ensures Extract(pre + [StartTag("a", attrs)] + post, recurse)
         == Extract(pre, recurse) + Hrefs(attrs, recurse) + Extract(post, recurse)
  {
    var t := StartTag("a", attrs);
    Assoc(pre, [t], post);
    ExtractAppend(pre, [t] + post, recurse);
    assert ([t] + post)[0] == t && ([t] + post)[1..] == post;
    assert Extract([t] + post, recurse) == Hrefs(attrs, recurse) + Extract(post, recurse);
    Assoc(Extract(pre, recurse), Hrefs(attrs, recurse), Extract(post, recurse));
  }

  /** Any token other than an error token or an anchor start tag contributes nothing. */
  lemma ExtractIgnores(pre: seq<Token>, t: Token, post: seq<Token>, recurse: bool)
    requires ErrorToken !in pre
    requires t != ErrorToken && !(t.StartTag? && t.data == "a")
    ensures Extract(pre + [t] + post, recurse) == Extract(pre + post, recurse)
  {
    Assoc(pre, [t], post);
    ExtractAppend(pre, [t] + post, recurse);
    ExtractAppend(pre, post, recurse);
    ExtractCons(t, post, recurse);
    assert LinksOf(t, recurse) == [];
    assert [] + Extract(post, recurse) == Extract(post, recurse);
  }
}
