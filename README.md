# AI Scraping tool — a Dafny model of its link collection and summary loop

The tool is a single Streamlit page (`test.py`). A user enters a URL and
presses "スクレイピング". The page then:

1. Collects the same-domain links of that page (`get_links`). It fetches the
   page and resolves every `<a href>` against the URL. It normalises each
   target (`normalize_url`) and keeps the targets whose normalised netloc
   equals the netloc of the URL as entered. On a request error the list is
   empty.
2. With no links, it shows "情報が取得できませんでした". Otherwise it draws 5
   links with `random.sample` and handles them in sampled order: fetch the
   page, cut its HTML to a token budget (`trim_html_content`, 5000 tokens by
   default), and ask a language model what the page is. After each success
   it appends `[link, description]` to a response list and shows the whole
   list again. Any exception raised inside that `try` replaces the output
   with "時間をおいてもう一度試してください".

The model has six modules:

- `Text`: ASCII `str.lower()`, `str.endswith` and Python's ordering of `str`.
- `QuerySort`: `sorted()` on the parsed `(key, value)` query pairs, proved to
  be a sorting permutation that depends only on the multiset of pairs.
- `Normalize`: `normalize_url`, working on a URL already split into the six
  `urlparse` components.
- `Links`: `get_links`. It is an imperative loop proved against a
  filter function.
- `Trim`: `trim_html_content`, over an abstract tokenizer.
- `Handler`: the button handler. It is an imperative loop proved against a
  closed-form description of every write it makes to the output area.

Behaviour of the code worth knowing:

- The params component is carried through unchanged.
- The whole netloc, userinfo included, is lower-cased.
- With one to four same-domain links the user sees the retry message.
  `random.sample(links, 5)` raises `ValueError`, and the bare `except`
  catches it. Fewer than five links are never summarised.
- A failure part-way through replaces the partial summaries. They are not
  kept on screen.
- Normalisation is not idempotent when the netloc carries the default port
  twice, as in `http://h:80:80/`.

## Model

| member | source | states |
|---|---|---|
| `Text.LowerChar` | test.py:63 | folding one character gives a non-capital letter; a capital `A`–`Z` moves to its small letter; every other character is unchanged |
| `Text.Lower` | test.py:63-65 | `lower()` keeps the length, folds every character on its own, and leaves no capital letter |
| `Text.LowerFixesLowerCase` | test.py:65 | a string with no capital letter is its own lower-case form |
| `Text.LowerAppend` | test.py:65 | case folding distributes over concatenation |
| `Text.StrLeTotal` | test.py:77 | any two `str` values are comparable under Python's `<=` |
| `Text.StrLeAntisymmetric` | test.py:77 | `a <= b` and `b <= a` hold together only for equal strings |
| `Text.StrLeTransitive` | test.py:77 | Python's `<=` on `str` is transitive |
| `QuerySort.PairLeTotal` | test.py:77 | tuple order (key, then value) is total on query pairs |
| `QuerySort.PairLeAntisymmetric` | test.py:77 | tuple order is antisymmetric on query pairs |
| `QuerySort.PairLeTransitive` | test.py:77 | tuple order is transitive on query pairs |
| `QuerySort.InsertPermutes` | test.py:77 | inserting one pair adds exactly that pair to the multiset |
| `QuerySort.InsertSorted` | test.py:77 | inserting into a sorted list keeps it sorted |
| `QuerySort.SortPairsSortsAndPermutes` | test.py:77 | `sorted(parse_qsl(...))` is sorted and is a permutation of the parsed pairs |
| `QuerySort.SortedUnique` | test.py:77 | two sorted lists with the same pairs are equal, so sorting has a single possible result |
| `QuerySort.SortPairsCanonical` | test.py:77 | two queries sort to the same list exactly when they hold the same pairs, whatever their order |
| `QuerySort.SortPairsOfSorted` | test.py:77 | sorting an already sorted list changes nothing |
| `Normalize.StripDefaultPortSpec` | test.py:66-70 | `:80` is dropped under `http` and `:443` under `https`; the rest followed by that suffix is the original netloc; any other netloc is unchanged |
| `Normalize.NormalizeUrlShape` | test.py:59-81 | scheme and netloc are lower-cased; the netloc is shortened exactly when it carried the scheme's default port; path and params are kept; the query is a sorted permutation; the fragment is empty |
| `Normalize.NormalizeEqualIff` | test.py:59-81 | two URLs normalise alike exactly when they agree on the lower-cased scheme, the port-stripped lower-cased netloc, path, params and the multiset of query pairs |
| `Normalize.NormalizeIgnoresCaseOrderAndFragment` | test.py:63-79 | letter case of scheme and netloc, query-pair order and the fragment do not change the result |
| `Normalize.DefaultPortElided` | test.py:66-70 | writing the default port explicitly (`h:80` under `http`, `h:443` under `https`) gives the same result as leaving it out |
| `Normalize.StripAppendedDefaultPort` | test.py:66-70 | appending the scheme's default port to a netloc that did not end in it, then stripping, gives back that netloc |
| `Normalize.OtherPortKept` | test.py:66-70 | a netloc without the scheme's default port keeps its port, lower-cased |
| `Normalize.NormalizeIdempotentIff` | test.py:59-81 | normalising twice equals normalising once exactly when the once-normalised netloc no longer ends in the default port |
| `Normalize.NormalizeFixpointIff` | test.py:59-81 | a URL is left unchanged exactly when its scheme and netloc have no capital letter, it has no default port, its query pairs are sorted and its fragment is empty |
| `Normalize.RenormalizeNetloc` | test.py:63-70 | a second pass strips the once-normalised netloc again under the same lower-cased scheme |
| `Normalize.StripDoubledHttpPort` | test.py:67-68 | under `http`, a netloc ending `:80:80` loses exactly one `:80` per strip |
| `Normalize.DoubledDefaultPortShrinksTwice` | test.py:66-68 | under `http`, a netloc ending `:80:80` changes on a second pass, which takes off one more `:80` |
| `Links.OnDomainAppend` | test.py:46-52 | filtering a concatenation filters each part |
| `Links.GetLinks` | test.py:33-56 | the loop returns exactly the normalised anchors whose netloc equals the seed's netloc, in document order; a request error gives `[]` |
| `Links.SameDomainLinksExact` | test.py:46-52 | the result has one entry per kept anchor position, in increasing position order, each the normalised anchor; a position is kept exactly when its normalised netloc equals the seed netloc |
| `Links.SameDomainLinksBound` | test.py:46-52 | there are never more links than anchors |
| `Links.SameDomainLinksMembers` | test.py:46-52 | a URL is among the links exactly when it lies on the seed's netloc and is the normalisation of some anchor |
| `Links.UpperCaseSeedMatchesNothing` | test.py:41-51 | a seed netloc with a capital letter matches no link, because the seed is compared as typed and links are lower-cased |
| `Links.DefaultPortSeedMatchesOnlyDoubledPorts` | test.py:41-51 | a seed netloc that carries the default port of a kept link's own scheme matches only links that a second normalisation would still change; a link under the other scheme can still match (seed `h:443` keeps `http://h:443/p`) |
| `Trim.TrimCases` | test.py:104-116 | the trim raises exactly when encoding raises; HTML within the budget is returned as is; over budget, the result decodes exactly the first `max_tokens` tokens |
| `Trim.TrimBoundary` | test.py:99-116 | at the default budget, exactly 5000 tokens pass unchanged and 5001 tokens are cut to the first 5000 |
| `Trim.TrimWithinBudget` | test.py:104-116 | when the cut prefix re-encodes to itself, every result fits the budget, and the HTML is returned unchanged exactly when it encodes and already fitted |
| `Trim.TrimIdempotent` | test.py:104-116 | under the same condition, trimming a result again gives that same result |
| `Handler.LeadingSuccesses` | test.py:139-145 | the number of summaries completed before the first exception: every earlier one succeeded and the next one raised |
| `Handler.ScrapeClicked` | test.py:129-145 | the handler's writes to the output area are exactly the closed-form sequence for the links `get_links` returns, the sampled positions and the per-link outcomes |
| `Handler.ClickOutcome` | test.py:133-145 | no links shows the no-information message; 1–4 links show the retry message; otherwise summaries stay on screen exactly when all 5 succeed, and any failure leaves the retry message; there are at most 6 writes |
| `Handler.ClickSummaries` | test.py:138-143 | when all 5 succeed, the screen ends with exactly 5 entries: the sampled links in sampled order, each with its description |
| `Handler.ClickProgress` | test.py:139-143 | the `j`-th write that shows entries shows the first `j + 1` sampled links with their descriptions, all of which succeeded |

## Left out

- HTTP (`requests.get`, `raise_for_status`, headers) is left out. Fetching the
  seed page is a `FetchOutcome` parameter: the anchors, or a
  `RequestException`. Fetching a sampled page and asking the model about it
  is a `Reply` per sampled link: a description, or an exception.
- HTML parsing (BeautifulSoup `find_all('a', href=True)`, `prettify`) is left
  out. The anchors arrive already extracted in document order.
- URL string handling (`urljoin`, `urlparse`, `urlunparse`, `parse_qsl`,
  `urlencode`, percent-encoding) is left out. URLs are modelled as their six
  components with the query already parsed into pairs. Equal components stand
  for equal URL strings. The whole normalised record is taken to survive being
  joined and parsed again: `urlparse(urlunparse(..))` gives back scheme,
  netloc, path and params, and `parse_qsl(urlencode(..))` gives back the
  sorted pairs. The lemmas that normalise twice rely on this.
- `Text.Lower` and `Text.LowerChar`: only ASCII letters are folded. Python's
  `str.lower()` also folds non-ASCII letters (`'Ä'.lower() == 'ä'`), and this
  model does not.
- Tokenization (`tiktoken.encoding_for_model("gpt-4")`) is left out. The
  encoding is an arbitrary pair of `encode`/`decode` functions. `encode` may
  raise `ValueError`, as tiktoken does on text that spells out a special
  token, but which texts raise is not modelled.
- `Trim.TrimHtmlContent` is not connected to the handler. Inside the handler
  a trim that raises is covered only as a `Raised` reply for that link.
- `Trim.TrimWithinBudget` and `Trim.TrimIdempotent` require that the cut
  prefix re-encodes to itself. Real tokenizers need not do this, and the
  source promises nothing here.
- The Gemini call, the API key, the prompt text and the Streamlit widgets
  (title, text input, button, `st.empty`) are left out. Only the sequence of
  writes to the output area is modelled.
- Randomness is left out. `random.sample` is a parameter: the 5 distinct
  positions it picks.
- Exceptions other than `RequestException` inside `get_links` are left out.
  An example is a malformed URL that makes `urlparse` raise. `get_links` is
  called before the handler's `try` opens, so such an exception leaves the
  handler unhandled.
