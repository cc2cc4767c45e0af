/**
 * The keyword filter of the slide detector: from the OCR text of one sampled frame,
 * keep the morphemes tagged as nouns that are neither blank nor stop words, in order,
 * and join them with single spaces.
 *
 * The OCR engine and the morphological tokenizer are foreign: the OCR result arrives as
 * `Option<string>` (`None` when frame extraction, image decoding or OCR raised), and the
 * tokenizer is a function from text to the tokenizer's node list, given as a sequence.
 */
module KeywordFilter {
  import opened Wrappers
  import opened Text

  /** One node of the tokenizer's output: its surface form and its comma-separated feature string. */
  datatype Token = Token(surface: string, feature: string)

  /** The part-of-speech tag for nouns, looked for in the first feature field. */
  const NounTag: string := "名詞"

  /** Particles and fillers that are never keywords. */
  const StopWords: set<string> :=
    {"に", "は", "を", "で", "の", "と", "が", "や", "など", "そして", "です", "ます", "から", "より", "まで", "へ", "ね", "よ"}

  /** The test applied to each node: a noun whose stripped surface is non-empty and not a stop word. */
  predicate IsKeyword(t: Token) {
    Contains(FirstField(t.feature), NounTag) && Strip(t.surface) != "" && Strip(t.surface) !in StopWords
  }

  /** What one node contributes: its stripped surface if it is a keyword, nothing otherwise. */
  function KeywordOf(t: Token): seq<string>
  {
    if IsKeyword(t) then [Strip(t.surface)] else []
  }

  /** The stripped surfaces of the keyword nodes, in node order. */
  function Keywords(tokens: seq<Token>): seq<string>
  {
    if tokens == [] then [] else Keywords(tokens[..|tokens| - 1]) + KeywordOf(tokens[|tokens| - 1])
  }

  /** The walk over the node list, appending each keyword surface as it is met. */
  method CollectKeywords(tokens: seq<Token>) returns (keywords: seq<string>)
    ensures keywords == Keywords(tokens)
  {
    keywords := [];
    var k := 0;
    while k < |tokens|
      invariant 0 <= k <= |tokens|
      invariant keywords == Keywords(tokens[..k])
    {
      var node := tokens[k];
      KeywordsPrefix(tokens, k);
      var surface := Strip(node.surface);
      if Contains(FirstField(node.feature), NounTag) && surface != "" && surface !in StopWords {
        keywords := keywords + [surface];
      }
      k := k + 1;
    }
    assert tokens[..k] == tokens;
  }

  /** The keyword string of one frame: empty when OCR failed or read nothing. */
  function FrameKeywords(ocr: Option<string>, tokenize: string -> seq<Token>): string
  {
    match ocr
    case None => ""
    case Some(raw) =>
      var text := Strip(raw);
      if text == "" then "" else Join(" ", Keywords(tokenize(text)))
  }

  /** `extract_keywords_from_frame`, after the frame has been read and recognised. */
  method ExtractKeywordsFromFrame(ocr: Option<string>, tokenize: string -> seq<Token>) returns (keywords: string)
    ensures keywords == FrameKeywords(ocr, tokenize)
  {
    match ocr {
      case None =>
        keywords := "";
      case Some(raw) =>
        var text := Strip(raw);
        if text == "" {
          keywords := "";
        } else {
          var list := CollectKeywords(tokenize(text));
          keywords := Join(" ", list);
        }
    }
  }

  /** Every keyword is a non-empty stripped surface that is not a stop word. */
  lemma {:induction false} KeywordsWellFormed(tokens: seq<Token>)
    ensures AllStrippedNonEmpty(Keywords(tokens))
    ensures forall j | 0 <= j < |Keywords(tokens)| :: Keywords(tokens)[j] !in StopWords
  {
    if tokens != [] {
      var init, last := tokens[..|tokens| - 1], tokens[|tokens| - 1];
      assert tokens == init + [last];
      KeywordsWellFormed(init);
      KeywordsSnoc(init, last);
      var k0, k := Keywords(init), Keywords(tokens);
      forall j | 0 <= j < |k| ensures k[j] != "" && IsStripped(k[j]) && k[j] !in StopWords {
        if j < |k0| {
          assert k[j] == k0[j];
        } else {
          assert k[j] == Strip(last.surface) && IsKeyword(last);
        }
      }
    }
  }

  /** Node `i` is a keyword node whose stripped surface is `w`. */
  predicate KeywordNodeAt(tokens: seq<Token>, i: int, w: string) {
    0 <= i < |tokens| && IsKeyword(tokens[i]) && Strip(tokens[i].surface) == w
  }

  /** A word is a keyword exactly when some keyword node has it as its stripped surface. */
  lemma {:induction false} KeywordsMembership(tokens: seq<Token>, w: string)
    ensures w in Keywords(tokens) <==> exists i :: KeywordNodeAt(tokens, i, w)
  {
    if tokens != [] {
      var n := |tokens|;
      var init, last := tokens[..n - 1], tokens[n - 1];
      assert tokens == init + [last];
      KeywordsSnoc(init, last);
      KeywordsMembership(init, w);
      if w in Keywords(init) {
        var i :| KeywordNodeAt(init, i, w);
        assert KeywordNodeAt(tokens, i, w);
      } else if w in KeywordOf(last) {
        assert KeywordNodeAt(tokens, n - 1, w);
      } else {
        forall i | KeywordNodeAt(tokens, i, w) ensures false {
          if i < n - 1 { assert KeywordNodeAt(init, i, w); }
        }
      }
    }
  }

  lemma KeywordsPrefix(tokens: seq<Token>, k: nat)
    requires k < |tokens|
    ensures Keywords(tokens[..k + 1]) == Keywords(tokens[..k]) + KeywordOf(tokens[k])
  {
    assert tokens[..k + 1][..k] == tokens[..k];
  }

  /** Filtering one more node appends that node's contribution. */
  lemma KeywordsSnoc(s: seq<Token>, x: Token)
    ensures Keywords(s + [x]) == Keywords(s) + KeywordOf(x)
  {
    assert (s + [x])[..|s|] == s;
  }

  /** The filter keeps the node order: filtering a concatenation concatenates the filtered parts. */
  lemma {:induction false} KeywordsAppend(a: seq<Token>, b: seq<Token>)
    ensures Keywords(a + b) == Keywords(a) + Keywords(b)
  {
    if b == [] {
      assert a + b == a;
    } else {
      var b', x := b[..|b| - 1], b[|b| - 1];
      assert b == b' + [x];
      assert a + b == (a + b') + [x];
      KeywordsAppend(a, b');
      KeywordsSnoc(a + b', x);
      KeywordsSnoc(b', x);
      calc {
        Keywords(a + b);
        Keywords((a + b') + [x]);
        Keywords(a + b') + KeywordOf(x);
        (Keywords(a) + Keywords(b')) + KeywordOf(x);
        Keywords(a) + (Keywords(b') + KeywordOf(x));
        Keywords(a) + Keywords(b);
      }
    }
  }

  /** A frame contributes no keyword string exactly when OCR failed, read only whitespace, or found no keyword node. */
  lemma FrameKeywordsEmptyIff(ocr: Option<string>, tokenize: string -> seq<Token>)
    ensures FrameKeywords(ocr, tokenize) == "" <==>
            (ocr == None || Strip(ocr.value) == "" || Keywords(tokenize(Strip(ocr.value))) == [])
  {
    if ocr.Some? && Strip(ocr.value) != "" {
      var ks := Keywords(tokenize(Strip(ocr.value)));
      KeywordsWellFormed(tokenize(Strip(ocr.value)));
      assert AllNonEmpty(ks);
      JoinEmptyIff(" ", ks);
    }
  }
}
