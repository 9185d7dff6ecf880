# yt-dlp Direct Link API: the `/direct` request pipeline in Dafny

This project models the decision logic of the service's `POST /direct` endpoint (`app.py`) and proves what it promises:

- **Policy gate.** The shared-secret API key is checked first (401), then the URL scheme (400), then the domain blocklist (403).
- **Blocklist.** `BLOCKLIST` is parsed from a comma-separated setting. A host is blocked when it equals an entry or ends with "." followed by an entry. A URL whose host cannot be parsed counts as blocked (fail-closed).
- **Extractor.** It is treated as a black box: a function from the URL to either metadata or a `DownloadError`. A `DownloadError` is answered with 422.
- **Format selector.** The priority order is:
  1. the pre-merged `requested_formats`;
  2. otherwise the single top-level `url`;
  3. otherwise the best progressive format, meaning one with both an audio and a video codec. "Best" is the highest `tbr`, found by a stable sort in descending order.
- **Response shaper.** It copies four metadata fields and builds one direct-link entry per selected format. The `filesize` falls back to `filesize_approx`. When nothing is selected, the answer is 404.

Modules:

- `Wrappers` (wrappers.dfy): `Option`. An absent dictionary key and a `None` value are both `None`.
- `PyStr` (pystr.dfy): the Python `str` operations the code uses, which are `split`, `strip`, `lower`, `startswith` and `endswith`. The file also proves their properties: the split/join round trips, and that strip only removes whitespace at the two ends.
- `Blocklist` (blocklist.dfy): parsing `BLOCKLIST`, taking the netloc out of a URL, and `domain_blocked`.
- `Formats` (formats.dfy): the format and metadata records, the progressive filter, the stable descending sort on `tbr`, and `pick_best_progressive`.
- `DirectEndpoint` (direct.dfy):
  - the gate, selection and shaping as functions;
  - `Pipeline`, the outcome of a whole request as a function;
  - the methods `SelectDirect` and `Direct`. These follow the source's control flow: each `raise` is an early return, and entries are appended in a loop. Both are proved equal to the functions.

Where the endpoint's documented contract and the code differ, the model follows the code:

- **Size fallback.** `filesize` falls back to `filesize_approx` when it is absent, and also when it is 0 (`or` in app.py:92).
- **Top-level URL.** This branch needs the `url` to be truthy, so an empty string does not count.
- **Unparsable URLs.** They are blocked only when the blocklist is non-empty, because line 59 tests `BLOCKLIST` before it calls `domain_blocked`.

The blocklist matches the whole netloc, so a port or a userinfo part keeps a host from matching its entry:

- `example.com:8080` is not blocked by `example.com` (`Blocklist.PortNotMatched`).
- `user@example.com` is not blocked by it either (`Blocklist.NoMatchWithoutDot`, because the character before the entry is `@`, not `.`).

## Model

| member | source | states |
|---|---|---|
| `Blocklist.ParseBlocklist` | app.py:12 | every parsed entry is non-empty, lower-case, has no surrounding whitespace and no comma |
| `Blocklist.ParseBlocklistConcat` | app.py:12 | entries keep the order of the setting: parsing `a,b` gives the entries of `a` followed by those of `b` |
| `Blocklist.ParseBlocklistRoundTrip` | app.py:12 | parsing the comma-join of well-formed entries gives back exactly those entries in order |
| `Blocklist.ParseBlocklistPiece` | app.py:12 | a piece without a comma gives no entry when blank and otherwise exactly one, the piece stripped and lower-cased (so `" B.com"` gives `"b.com"`); with `ParseBlocklistConcat` this fixes every setting's entries |
| `Blocklist.ParseBlocklistBlank` | app.py:12 | a setting of only commas and whitespace (the unset default "" included) gives an empty blocklist |
| `PyStr.StripProperties` | app.py:12 | `strip()` leaves neither end whitespace, returns a slice of its input and cuts off only whitespace |
| `PyStr.LowerProperties` | app.py:12 | `lower()` keeps the length, leaves no upper-case letter and changes only upper-case letters |
| `PyStr.SplitPiecesHaveNoSep` | app.py:12 | no piece of `split(",")` contains a comma |
| `PyStr.SplitConcat` | app.py:12 | splitting `a + "," + b` gives the pieces of `a` then the pieces of `b` |
| `PyStr.JoinSplit` | app.py:12 | joining the pieces of a split with the separator gives back the string |
| `PyStr.SplitJoin` | app.py:12 | splitting the join of separator-free pieces gives back the pieces |
| `Blocklist.UpToDelimiter` | app.py:30 | the netloc is the longest prefix of what follows `scheme://` that contains no `/`, `?` or `#` |
| `Blocklist.HostOf` | app.py:30 | for `scheme://host/path`, with no delimiter, bracket, tab, CR or LF in the host and none of the last three in the path, the netloc is exactly the host, port included |
| `Blocklist.RemoveUnsafe` | app.py:30 | the URL as `urlsplit` first cleans it: no tab, carriage return or line feed is left |
| `Blocklist.UnsafeCharIgnored` | app.py:30 | a tab, CR or LF anywhere after the scheme does not change the netloc (`http://exa<tab>mple.com/` has netloc `example.com`) |
| `Blocklist.AnyMatch` | app.py:33 | the scan over the blocklist is true iff some entry matches the host |
| `Blocklist.DomainBlockedIff` | app.py:28-33 | a URL is blocked iff it does not parse, or its lower-cased netloc equals an entry or ends with "." followed by an entry |
| `Blocklist.SubdomainMatches` | app.py:33 | every sub-domain `x.d` of an entry `d` is matched |
| `Blocklist.NoMatchWithoutDot` | app.py:33 | `p + d` is not matched by `d` when `p` does not end in a dot (`notexample.com` is not under `example.com`) |
| `Blocklist.PortNotMatched` | app.py:30-33 | a netloc `d:port` is not matched by the entry `d` |
| `Blocklist.ParseOutcomeDecides` | app.py:29-33 | an unparsable URL is blocked whatever the list holds; a parsable one is never blocked by an empty list |
| `Blocklist.UnbalancedBracketExample` | app.py:29-32 | `http://[::1/x` fails to parse and is therefore blocked (fail-closed) |
| `Formats.Progressives` | app.py:37-41 | the filter's result is no longer than the list, and holds exactly the formats of the list whose audio and video codecs are both present and not `"none"` |
| `Formats.ProgressivesConcat` | app.py:38-41 | filtering a concatenation gives the filtered parts in the same order |
| `Formats.ProgressivesSingleton` | app.py:38-41 | one format is kept exactly when it is progressive; with `ProgressivesConcat` this fixes the result, order and duplicates included |
| `Formats.SortPermutation` | app.py:43 | the sort is a permutation of the progressive formats |
| `Formats.SortSorted` | app.py:43 | after the sort the `tbr` keys (missing or 0 read as 0) are in descending order |
| `Formats.SortStable` | app.py:43 | the sort is stable: for every key, the formats with that key keep their original relative order |
| `Formats.PickNoneIff` | app.py:35-44 | `pick_best_progressive` returns `None` iff no format is progressive |
| `Formats.PickIsBest` | app.py:35-44 | a pick is a progressive format of the list whose key is at least that of every progressive format |
| `Formats.PickIsEarliest` | app.py:43-44 | among progressive formats with the greatest key, the pick is the first in list order |
| `DirectEndpoint.KeyRejectedIff` | app.py:52-54 | with a truthy `API_KEY` the request is refused iff the header differs from it; with none configured the check never refuses |
| `DirectEndpoint.KeyCheckedFirst` | app.py:52-54 | a wrong or missing key gets 401 whatever the URL and the blocklist |
| `DirectEndpoint.BadUrlRejected` | app.py:56-57 | past the key check, an empty or non-http(s) URL gets 400, before any blocklist check |
| `DirectEndpoint.BlocklistDecides` | app.py:59-60 | past the first two checks, 403 iff the blocklist is non-empty and blocks the URL; an empty blocklist lets every such URL through |
| `DirectEndpoint.FileSizeFallback` | app.py:92 | a link's size is `filesize` when that is non-zero, otherwise `filesize_approx` (absent stays absent) |
| `DirectEndpoint.RequestedFormatsWin` | app.py:86-94 | with non-empty `requested_formats` there is one link per requested format, in order, whatever the bit rates |
| `DirectEndpoint.TopLevelUrlNext` | app.py:95-103 | otherwise a truthy top-level `url` gives exactly one link, built from the top-level keys |
| `DirectEndpoint.ProgressiveLast` | app.py:104-114 | otherwise at most one link: none iff no progressive format, else from a progressive format with the greatest `tbr`, the first such |
| `DirectEndpoint.GateBeforeExtraction` | app.py:52-75 | a request the gate refuses gets the gate's error whatever the extractor does, so no extraction happens first |
| `DirectEndpoint.ExtractionErrorIs422` | app.py:71-75 | past the gate, a `DownloadError` is answered with 422 and `"yt-dlp error: "` plus its message |
| `DirectEndpoint.NothingSelectedIs404` | app.py:116-117 | past the gate and extraction, the answer is 404 iff no format was selected |
| `DirectEndpoint.SuccessfulResponse` | app.py:77-119 | a success passed every check, copies `title`, `webpage_url`, `duration` and `uploader`, and has a non-empty `direct` list with one link per selected format, in order |
| `DirectEndpoint.RequestedExample` | app.py:86-94 | two pre-merged streams give exactly their two links in order, even beside a better progressive format |
| `DirectEndpoint.ProgressiveExample` | app.py:104-114 | with `[audio-only 500, av 300, av 800]` the selection is the `tbr` 800 format |
| `DirectEndpoint.TieBreakExample` | app.py:104-114 | an empty `requested_formats` falls through; with equal rates the earlier format wins; a missing rate loses to a positive one |
| `DirectEndpoint.SelectDirect` | app.py:85-114 | the appending loop builds exactly one shaped entry per selected format, in order |
| `DirectEndpoint.Direct` | app.py:50-119 | the endpoint answers exactly as `Pipeline`: 401, 400, 403, 422, 404 in that order, or the shaped response |

## Left out

- The call to `yt_dlp.YoutubeDL(...).extract_info` and its options (app.py:62-75) are a foreign library doing network work. They become the parameter `extract`, a function from the URL to metadata or a `DownloadError`.
- Exceptions from the extractor other than `DownloadError` are not caught in the source. The web framework would turn them into a 500, and they are not modelled.
- The web framework is not modelled: the FastAPI routing, the `/health` endpoint, the CORS middleware and `ALLOW_ORIGINS`, and the pydantic body validation. For example, a body without `url` is refused by pydantic with 422 before the handler runs.
- The reads of environment variables are not modelled (app.py:10-12, 14-22). `API_KEY` and the parsed blocklist are fields of `Config`.
- The `format` request field (app.py:26) is never read, so `DirectReq` does not keep it.
- main.py is not part of this model.
- `Blocklist.Netloc` models only the part of `urlparse` that these URLs reach. It deletes every tab, carriage return and line feed from the URL, as `urlsplit` does first, and then takes what follows `scheme://` up to the first `/`, `?` or `#`. The stripping of leading control characters and spaces is left out, because these URLs begin with `http`.
- `Blocklist.Netloc`: the one parse error it models is an unbalanced `[` or `]`. Python's further `ValueError` checks are not modelled: the validation of a bracketed host and the NFKC check on non-ASCII netlocs. For those URLs the model parses a host where urlparse raises, and so may report "not blocked" where the source blocks.
- `Blocklist.DomainBlocked` requires an http or https URL, because its only caller (app.py:59) runs after the scheme check at app.py:56.
- `PyStr.Lower` maps only ASCII letters, not the full Unicode case mapping of `str.lower()`. `PyStr.IsSpace` is Python's whitespace set.
- `Formats.SortByTbrDesc`: the in-place `list.sort` on a local list is modelled by the list it leaves behind, a stable sort by descending key. The list is local to the function, so no aliasing is lost. `tbr` is a `real`; NaN values are not modelled.
- Every function of the model is pure, so selection always gives the same output for the same metadata. No lemma states this separately.
