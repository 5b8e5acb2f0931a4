/** Retrieved sources and the bounded prompt packer (src/deepr/backends/fresh_context.py). */
module FreshContexts {
  import opened Text

  datatype FreshSource = FreshSource(
    title: string,
    url: string,
    snippet: string,
    content: string,
    source: string,
    fetched: bool,
    error: string,
    etag: string,
    lastModified: string,
    notModified: bool,
    contentHash: string)

  datatype Config = Config(maxPerSource: int, maxTotal: int)

  function Min(a: int, b: int): int { if a < b then a else b }

  // ----- Excerpts -----

  /** The text an excerpt is cut from: the content, or the snippet when there is none. */
  function Body(s: FreshSource): string {
    var content := Strip(s.content, IsSpace);
    if content != "" then content else Strip(s.snippet, IsSpace)
  }

  function Excerpt(s: FreshSource, maxChars: int): string {
    if maxChars <= 0 then ""
    else
      var text := Body(s);
      if |text| <= maxChars then text
      else TrimRight(text[..if maxChars >= 3 then maxChars - 3 else 0], IsSpace) + "..."
  }

  /** An excerpt outgrows its limit exactly when the limit is one or two characters and the
      text does not fit: the ellipsis alone takes three. */
  lemma ExcerptLength(s: FreshSource, maxChars: int)
    ensures |Excerpt(s, maxChars)| > maxChars && maxChars > 0 <==> 1 <= maxChars <= 2 && |Body(s)| > maxChars
    ensures 1 <= maxChars <= 2 && |Body(s)| > maxChars ==> Excerpt(s, maxChars) == "..."
    ensures |Excerpt(s, maxChars)| <= if maxChars <= 0 then 0 else if maxChars < 3 then 3 else maxChars
    ensures Excerpt(s, maxChars) != "" <==> maxChars > 0 && Body(s) != ""
  {
    hide Body;
  }

  /** An excerpt is the text itself, or an ellipsis after a prefix of it that leaves out
      nothing but blanks below the limit. */
  lemma ExcerptIsPrefix(s: FreshSource, maxChars: int) returns (kept: nat)
    requires maxChars > 0
    ensures var e, text := Excerpt(s, maxChars), Body(s);
            && kept <= |text|
            && if |text| <= maxChars then e == text
               else e == text[..kept] + "..." && forall k :: kept <= k < maxChars - 3 ==> IsSpace(text[k])
  {
    hide Body, TrimRight, IsSpace;
    var text := Body(s);
    if |text| > maxChars {
      var end := if maxChars >= 3 then maxChars - 3 else 0;
      TrimmedAreBlank(text[..end], IsSpace);
      kept := |TrimRight(text[..end], IsSpace)|;
      assert TrimRight(text[..end], IsSpace) == text[..end][..kept] == text[..kept];
      forall k | kept <= k < maxChars - 3 ensures IsSpace(text[k]) { assert text[..end][k] == text[k]; }
    } else {
      kept := 0;
    }
  }

  // ----- Citable sources -----

  /** Sixty-four hexadecimal digits. */
  predicate IsSha256(h: string) {
    |h| == 64 && forall c <- h :: '0' <= c <= '9' || 'a' <= c <= 'f' || 'A' <= c <= 'F'
  }

  /** `digest` is SHA-256 in hexadecimal. */
  function ContentHash(s: FreshSource, digest: string -> string): string {
    var text := Strip(s.content, IsSpace);
    if s.contentHash != "" then s.contentHash else if text == "" then "" else digest(text)
  }

  predicate Citable(s: FreshSource, digest: string -> string) {
    Excerpt(s, 1) != "" && IsSha256(ContentHash(s, digest))
  }

  function CitableSources(sources: seq<FreshSource>, digest: string -> string): (r: seq<FreshSource>)
    ensures forall s <- r :: Citable(s, digest)
  {
    if sources == [] then []
    else (if Citable(sources[0], digest) then [sources[0]] else []) + CitableSources(sources[1..], digest)
  }

  /** Only a source's own content is hashed and shown first: the snippet stands in for the text
      of a source without content, and never for its hash; a stored hash goes before both. A
      source is citable exactly when it has text to show and a well-formed hash. */
  lemma CitedText(s: FreshSource, maxChars: int, digest: string -> string)
    ensures maxChars >= |Strip(s.content, IsSpace)| > 0 ==> Excerpt(s, maxChars) == Strip(s.content, IsSpace)
    ensures maxChars >= |Strip(s.snippet, IsSpace)| && maxChars > 0 && Strip(s.content, IsSpace) == "" ==>
              Excerpt(s, maxChars) == Strip(s.snippet, IsSpace)
    ensures 0 < maxChars < |Strip(s.content, IsSpace)| ==>
              && |Excerpt(s, maxChars)| >= 3
              && var shown := Excerpt(s, maxChars);
                 && shown[..|shown| - 3] <= Strip(s.content, IsSpace) && shown[|shown| - 3..] == "..."
    ensures s.contentHash != "" ==> ContentHash(s, digest) == s.contentHash
    ensures s.contentHash == "" && Strip(s.content, IsSpace) != "" ==>
              ContentHash(s, digest) == digest(Strip(s.content, IsSpace))
    ensures s.contentHash == "" && Strip(s.content, IsSpace) == "" ==> ContentHash(s, digest) == ""
    ensures Citable(s, digest) <==>
              && (Strip(s.content, IsSpace) != "" || Strip(s.snippet, IsSpace) != "")
              && |ContentHash(s, digest)| == 64
              && forall k :: 0 <= k < 64 ==> ContentHash(s, digest)[k] in "0123456789abcdefABCDEF"
  {
    hide Strip, TrimRight, IsSpace;
    HexDigits(ContentHash(s, digest));
    hide IsSha256;
    ExcerptLength(s, 1);
    if 0 < maxChars < |Body(s)| {
      var kept := ExcerptIsPrefix(s, maxChars);
      assert Excerpt(s, maxChars) == Body(s)[..kept] + "...";
    }
  }

  lemma HexDigits(h: string)
    ensures IsSha256(h) <==> |h| == 64 && forall k :: 0 <= k < 64 ==> h[k] in "0123456789abcdefABCDEF"
  {
    forall c: char
      ensures c in "0123456789abcdefABCDEF" <==> '0' <= c <= '9' || 'a' <= c <= 'f' || 'A' <= c <= 'F'
    {
      var hex := "0123456789abcdefABCDEF";
      assert '0' <= c <= '9' ==> hex[c as int - '0' as int] == c;
      assert 'a' <= c <= 'f' ==> hex[10 + (c as int - 'a' as int)] == c;
      assert 'A' <= c <= 'F' ==> hex[16 + (c as int - 'A' as int)] == c;
    }
    if IsSha256(h) {
      forall k | 0 <= k < 64 ensures h[k] in "0123456789abcdefABCDEF" { assert h[k] in h; }
    }
    if |h| == 64 && forall k :: 0 <= k < 64 ==> h[k] in "0123456789abcdefABCDEF" {
      forall c | c in h ensures '0' <= c <= '9' || 'a' <= c <= 'f' || 'A' <= c <= 'F' {
        var k :| 0 <= k < 64 && h[k] == c;
      }
    }
  }

  /** The citable sources are kept in order, and nothing else is. */
  lemma {:induction false} CitableInOrder(s: FreshSource, a: seq<FreshSource>, b: seq<FreshSource>,
                                          digest: string -> string)
    ensures CitableSources([s], digest) == if Citable(s, digest) then [s] else []
    ensures CitableSources(a + b, digest) == CitableSources(a, digest) + CitableSources(b, digest)
  {
    hide Citable;
    assert [s][1..] == [];
    if a == [] {
      assert a + b == b;
    } else {
      assert (a + b)[1..] == a[1..] + b;
      CitableInOrder(s, a[1..], b, digest);
    }
  }

  // ----- Packing -----

  /** A block of the prompt: the label S`label`, the source and the excerpt shown. */
  datatype Block = Block(number: nat, source: FreshSource, excerpt: string)

  function Pack(citable: seq<FreshSource>, index: nat, used: int, cfg: Config): seq<Block> {
    if citable == [] || cfg.maxTotal - used <= 0 then []
    else
      var excerpt := Excerpt(citable[0], Min(cfg.maxPerSource, cfg.maxTotal - used));
      if excerpt == "" then Pack(citable[1..], index + 1, used, cfg)
      else
        [Block(index, citable[0], excerpt)]
        + if used + |excerpt| >= cfg.maxTotal then [] else Pack(citable[1..], index + 1, used + |excerpt|, cfg)
  }

  function TotalLength(blocks: seq<Block>): nat {
    if blocks == [] then 0 else TotalLength(blocks[..|blocks| - 1]) + |blocks[|blocks| - 1].excerpt|
  }

  lemma PackFrom(citable: seq<FreshSource>, i: nat, used: int, cfg: Config)
    requires i < |citable|
    ensures var excerpt := Excerpt(citable[i], Min(cfg.maxPerSource, cfg.maxTotal - used));
            Pack(citable[i..], i + 1, used, cfg) ==
            if cfg.maxTotal - used <= 0 then []
            else if excerpt == "" then Pack(citable[i + 1..], i + 2, used, cfg)
            else [Block(i + 1, citable[i], excerpt)]
                 + if used + |excerpt| >= cfg.maxTotal then [] else Pack(citable[i + 1..], i + 2, used + |excerpt|, cfg)
  {
    hide Excerpt;
    var rest := citable[i..];
    assert rest[0] == citable[i] && rest[1..] == citable[i + 1..];
  }

  lemma TotalSnoc(blocks: seq<Block>, b: Block)
    ensures TotalLength(blocks + [b]) == TotalLength(blocks) + |b.excerpt|
  {
    assert (blocks + [b])[..|blocks|] == blocks;
  }

  /** The loop of `to_prompt_context`, over the sources numbered from one. */
  method ToPromptContext(sources: seq<FreshSource>, digest: string -> string,
                         cfg: Config) returns (blocks: seq<Block>, usedChars: nat)
    ensures blocks == Pack(CitableSources(sources, digest), 1, 0, cfg) && usedChars == TotalLength(blocks)
  {
    hide Excerpt, TotalLength, Pack, CitableSources;
    var citable := CitableSources(sources, digest);
    blocks, usedChars := [], 0;
    EmptyPack(cfg);
    ghost var rest := Pack(citable, 1, 0, cfg);
    var i := 0;
    assert citable[0..] == citable;
    while i < |citable|
      invariant 0 <= i <= |citable|
      invariant usedChars == TotalLength(blocks)
      invariant rest == Pack(citable[i..], i + 1, usedChars, cfg)
      invariant blocks + rest == Pack(citable, 1, 0, cfg)
    {
      PackFrom(citable, i, usedChars, cfg);
      var remaining := cfg.maxTotal - usedChars;
      if remaining <= 0 { return; }
      var excerpt := Excerpt(citable[i], Min(cfg.maxPerSource, remaining));
      if excerpt != "" {
        TotalSnoc(blocks, Block(i + 1, citable[i], excerpt));
        blocks := blocks + [Block(i + 1, citable[i], excerpt)];
        usedChars := usedChars + |excerpt|;
        if usedChars >= cfg.maxTotal { return; }
        rest := Pack(citable[i + 1..], i + 2, usedChars, cfg);
      }
      i := i + 1;
    }
    assert citable[i..] == [];
    EmptyRest(i + 1, usedChars, cfg);
  }

  lemma EmptyPack(cfg: Config)
    ensures TotalLength([]) == 0
  {
  }

  lemma EmptyRest(index: nat, used: int, cfg: Config)
    ensures Pack([], index, used, cfg) == []
  {
  }

  // ----- What the packer promises -----

  function FrontTotal(blocks: seq<Block>): nat {
    if blocks == [] then 0 else |blocks[0].excerpt| + FrontTotal(blocks[1..])
  }

  lemma {:induction false} TotalFromFront(blocks: seq<Block>)
    ensures TotalLength(blocks) == FrontTotal(blocks)
  {
    if |blocks| > 1 {
      TotalFromFront(blocks[..|blocks| - 1]);
      TotalFromFront(blocks[1..]);
      TotalFromFront(blocks[1..][..|blocks| - 2]);
      assert blocks[..|blocks| - 1][1..] == blocks[1..][..|blocks| - 2];
    }
  }

  /** The total of a packing, one source at a time. */
  lemma FrontStep(citable: seq<FreshSource>, index: nat, used: int, cfg: Config)
    requires citable != [] && cfg.maxTotal - used > 0
    ensures var excerpt := Excerpt(citable[0], Min(cfg.maxPerSource, cfg.maxTotal - used));
            FrontTotal(Pack(citable, index, used, cfg)) ==
            if used + |excerpt| >= cfg.maxTotal then |excerpt|
            else |excerpt| + FrontTotal(Pack(citable[1..], index + 1, used + |excerpt|, cfg))
  {
    hide Excerpt;
    var excerpt := Excerpt(citable[0], Min(cfg.maxPerSource, cfg.maxTotal - used));
    if excerpt != "" {
      var tail := if used + |excerpt| >= cfg.maxTotal then [] else Pack(citable[1..], index + 1, used + |excerpt|, cfg);
      assert ([Block(index, citable[0], excerpt)] + tail)[1..] == tail;
    }
  }

  lemma {:induction false} PackBounded(citable: seq<FreshSource>, index: nat, used: int, cfg: Config)
    requires used <= cfg.maxTotal
    ensures used + FrontTotal(Pack(citable, index, used, cfg)) <= cfg.maxTotal + 2
    ensures cfg.maxTotal <= used ==> FrontTotal(Pack(citable, index, used, cfg)) == 0
  {
    hide Excerpt, Body;
    if citable != [] && cfg.maxTotal - used > 0 {
      var limit := Min(cfg.maxPerSource, cfg.maxTotal - used);
      ExcerptLength(citable[0], limit);
      FrontStep(citable, index, used, cfg);
      var now := used + |Excerpt(citable[0], limit)|;
      if now < cfg.maxTotal { PackBounded(citable[1..], index + 1, now, cfg); }
    }
  }

  /** Every block shows its source as far as the limit for one source and what is left of the
      total allow. */
  lemma {:induction false} PackShowsLimited(citable: seq<FreshSource>, index: nat, used: int, cfg: Config, k: nat)
    requires k < |Pack(citable, index, used, cfg)|
    ensures var blocks := Pack(citable, index, used, cfg);
            var left := cfg.maxTotal - used - FrontTotal(blocks[..k]);
            && left > 0
            && blocks[k].excerpt == Excerpt(blocks[k].source,
                                            if cfg.maxPerSource <= left then cfg.maxPerSource else left)
  {
    hide Excerpt;
    var blocks := Pack(citable, index, used, cfg);
    var excerpt := Excerpt(citable[0], Min(cfg.maxPerSource, cfg.maxTotal - used));
    if excerpt == "" {
      PackShowsLimited(citable[1..], index + 1, used, cfg, k);
    } else if k > 0 {
      assert blocks[1..] == Pack(citable[1..], index + 1, used + |excerpt|, cfg);
      PackShowsLimited(citable[1..], index + 1, used + |excerpt|, cfg, k - 1);
      assert blocks[..k][1..] == blocks[1..][..k - 1];
    } else {
      assert blocks[..0] == [];
    }
  }

  /** The packer comes to a source with one or two characters left to fill, and the source's
      text does not fit. */
  predicate RunsShort(citable: seq<FreshSource>, used: int, cfg: Config)
    decreases |citable|
  {
    && citable != [] && cfg.maxPerSource > 0 && used < cfg.maxTotal
    && var remaining := cfg.maxTotal - used;
       var limit := Min(cfg.maxPerSource, remaining);
       if remaining <= 2 && |Body(citable[0])| > limit then true
       else RunsShort(citable[1..], used + |Excerpt(citable[0], limit)|, cfg)
  }

  lemma {:induction false} OverrunStep(citable: seq<FreshSource>, index: nat, used: int, cfg: Config)
    requires used <= cfg.maxTotal
    ensures used + FrontTotal(Pack(citable, index, used, cfg)) > cfg.maxTotal <==> RunsShort(citable, used, cfg)
  {
    hide Excerpt, Body;
    if citable != [] && cfg.maxTotal - used > 0 {
      var limit := Min(cfg.maxPerSource, cfg.maxTotal - used);
      ExcerptLength(citable[0], limit);
      FrontStep(citable, index, used, cfg);
      var now := used + |Excerpt(citable[0], limit)|;
      if now < cfg.maxTotal {
        OverrunStep(citable[1..], index + 1, now, cfg);
      }
    }
  }

  /** The total is exceeded exactly when the packer runs short. */
  lemma OverrunIff(sources: seq<FreshSource>, digest: string -> string, cfg: Config)
    requires cfg.maxTotal >= 0
    ensures TotalLength(Pack(CitableSources(sources, digest), 1, 0, cfg)) > cfg.maxTotal
            <==> RunsShort(CitableSources(sources, digest), 0, cfg)
  {
    TotalFromFront(Pack(CitableSources(sources, digest), 1, 0, cfg));
    OverrunStep(CitableSources(sources, digest), 1, 0, cfg);
  }

  /** The total excerpt length stays within `maxTotal + 2`, and nothing is shown when the
      total is not positive. */
  lemma PromptBound(sources: seq<FreshSource>, digest: string -> string, cfg: Config)
    ensures TotalLength(Pack(CitableSources(sources, digest), 1, 0, cfg))
            <= if cfg.maxTotal <= 0 then 0 else cfg.maxTotal + 2
  {
    TotalFromFront(Pack(CitableSources(sources, digest), 1, 0, cfg));
    if cfg.maxTotal > 0 { PackBounded(CitableSources(sources, digest), 1, 0, cfg); }
  }

  /** The bound is reached: one character allowed, three shown. */
  lemma PromptBoundIsReached(digest: string -> string)
    ensures exists sources, cfg :: TotalLength(Pack(CitableSources(sources, digest), 1, 0, cfg)) == cfg.maxTotal + 2
  {
    var zeros := seq(64, _ => '0');
    var s := FreshSource("", "u", "", "abcd", "", true, "", "", "", false, zeros);
    var cfg := Config(1800, 1);
    assert Strip("abcd", IsSpace) == "abcd" by {
      var j := StripAppend("", "abcd", IsSpace);
      assert "" + "abcd" == "abcd";
    }
    assert Body(s) == "abcd" && Excerpt(s, 1) == "...";
    hide Excerpt, Body;
    assert Citable(s, digest);
    assert CitableSources([s], digest) == [s];
    var blocks := Pack([s], 1, 0, cfg);
    assert blocks == [Block(1, s, "...")];
    TotalSnoc([], blocks[0]);
    assert [] + [blocks[0]] == blocks;
  }

  // ----- Labels -----

  lemma {:induction false} PackPrefix(citable: seq<FreshSource>, index: nat, used: int, cfg: Config)
    requires forall s <- citable :: Body(s) != ""
    ensures var blocks := Pack(citable, index, used, cfg);
            && |blocks| <= |citable|
            && forall k :: 0 <= k < |blocks| ==> blocks[k].number == index + k && blocks[k].source == citable[k]
    ensures cfg.maxPerSource <= 0 ==> Pack(citable, index, used, cfg) == []
  {
    hide Excerpt, Body;
    if citable != [] && cfg.maxTotal - used > 0 {
      var excerpt := Excerpt(citable[0], Min(cfg.maxPerSource, cfg.maxTotal - used));
      ExcerptLength(citable[0], Min(cfg.maxPerSource, cfg.maxTotal - used));
      PackPrefix(citable[1..], index + 1, used + |excerpt|, cfg);
    }
  }

  /** The entries of `to_source_pack`: every citable source, numbered from one. */
  function SourcePack(citable: seq<FreshSource>, limit: int): (r: seq<Block>)
    ensures |r| == |citable|
  {
    seq(|citable|, k requires 0 <= k < |citable| => Block(k + 1, citable[k], Excerpt(citable[k], limit)))
  }

  /** The prompt shows a prefix of the citable sources, so that a label cited from the prompt
      names the same source in the source pack. */
  lemma LabelsAgree(sources: seq<FreshSource>, digest: string -> string, cfg: Config, limit: int)
    ensures var citable := CitableSources(sources, digest);
            var prompt, pack := Pack(citable, 1, 0, cfg), SourcePack(citable, limit);
            && |prompt| <= |pack|
            && forall k :: 0 <= k < |prompt| ==>
                 prompt[k].number == pack[k].number == k + 1 && prompt[k].source == pack[k].source
                   && prompt[k].excerpt != ""
  {
    var citable := CitableSources(sources, digest);
    forall s | s in citable ensures Body(s) != "" {
      assert Citable(s, digest);
      ExcerptLength(s, 1);
    }
    hide Excerpt, Body, CitableSources;
    PackPrefix(citable, 1, 0, cfg);
    PackShows(citable, 1, 0, cfg);
  }

  lemma {:induction false} PackShows(citable: seq<FreshSource>, index: nat, used: int, cfg: Config)
    ensures forall b <- Pack(citable, index, used, cfg) :: b.excerpt != ""
  {
    hide Excerpt;
    if citable != [] && cfg.maxTotal - used > 0 {
      PackShows(citable[1..], index + 1, used + |Excerpt(citable[0], Min(cfg.maxPerSource, cfg.maxTotal - used))|, cfg);
    }
  }

  /** Every citable source but those cut off by the total is shown: the prompt stops early
      only once the total has been used up. */
  lemma {:induction false} StopsOnlyWhenFull(citable: seq<FreshSource>, index: nat, used: int, cfg: Config)
    requires forall s <- citable :: Body(s) != ""
    requires cfg.maxPerSource > 0
    ensures var blocks := Pack(citable, index, used, cfg);
            |blocks| < |citable| ==> used + FrontTotal(blocks) >= cfg.maxTotal
  {
    hide Excerpt, Body, FrontTotal;
    if citable != [] && cfg.maxTotal - used > 0 {
      var excerpt := Excerpt(citable[0], Min(cfg.maxPerSource, cfg.maxTotal - used));
      ExcerptLength(citable[0], Min(cfg.maxPerSource, cfg.maxTotal - used));
      FrontStep(citable, index, used, cfg);
      StopsOnlyWhenFull(citable[1..], index + 1, used + |excerpt|, cfg);
    }
  }
}
