# nori, modelled in Dafny

nori is an Android client for booru image boards: you search a board by tags, page through the
thumbnails, and view, share or download the images. The repository holds three generations of it:

- the first, `pe.moe.nori` (`src/pe/moe/nori`), with its own clients for the Danbooru 2, DanbooruLegacy, Gelbooru and Shimmie2 APIs and a `service_settings` content provider;
- the second, `com.cuddlesoft.nori` under `src/main`, with a Gelbooru client and a parcelable `SearchResult`;
- the third, under `app/src/main`, which keeps its services in an SQLite `api_settings` table, hides filtered tags and ratings, and suggests tags while you type.

It also holds `script.js`, the project page's contact form, which turns the subject and body into a `mailto:` link.

The model covers the logic under the Android wiring:

- percent-encoding, with `encodeURIComponent` and `Uri.encode` sharing one encoder;
- the `mailto:` link;
- `trim`/`split`/`merge`, and the two filter preferences stored that way;
- `Tag` and the second generation's `SearchResult`, with their filters, paging and parcel forms;
- the API clients' search URLs, and their XML readers over a stream of parser events;
- Base64 credentials;
- the Pixiv-id matcher;
- service settings, with their parcel form, client dispatch, type detection and the tables that store them;
- the search-suggestion provider;
- the paging and pending-request state machines of the search activities, grids and image viewers;
- title truncation, file names, share, Pixiv and web-view pages;
- the tag-list dialogs, network heuristics and preference widgets.

Each module is named after the class it models. A module that models more than one generation says so.

Some values come from outside the code shown and are inputs to the model:

- the network, as response codes and pull-parser events;
- the clock;
- Android resources;
- `Uri.parse`;
- the members of library classes that are not shown.

An operation that throws in the source (a null dereference, an index out of bounds, an `UnsupportedOperationException`) returns a `Result` whose error names the exception. The exceptions are listed under "## Left out": a few reads report an error where the source stores a null that the model's types cannot hold, and some exceptions on user-entered URLs are not modelled.

## Model

| member | source | states |
|---|---|---|
| JavaStrings.Trim | app/src/main/java/com/cuddlesoft/nori/TagFilterSettingsActivity.java:91 | trim() never grows a string and leaves no trimmable character at either end |
| JavaStrings.TrimIdempotent | app/src/main/java/com/cuddlesoft/nori/fragment/AddTagFilterDialogFragment.java:108 | trimming twice is trimming once |
| JavaStrings.Split | app/src/main/java/com/cuddlesoft/nori/TagFilterSettingsActivity.java:93 | split(" ") returns the whole string when the separator is absent, and no piece ever contains the separator |
| JavaStrings.SplitThenJoin | app/src/main/java/com/cuddlesoft/nori/TagFilterSettingsActivity.java:91-93 | joining the pieces of a split with the separator gives the string back whenever it does not end in the separator |
| JavaStrings.SplitJoin | app/src/main/java/com/cuddlesoft/nori/TagFilterSettingsActivity.java:93 | splitting a join of non-empty, separator-free strings gives back exactly those strings |
| JavaStrings.LastIndexOf | src/pe/moe/nori/ImageViewerActivity.java:100 | lastIndexOf is -1 exactly when the character is absent; otherwise it holds the character and nothing after it does |
| JavaStrings.IntToDecimal | src/pe/moe/nori/ImageViewerActivity.java:188 | Long.toString prints at least one character, and only digits for a non-negative value |
| JavaStrings.ParseDecimal | src/pe/moe/nori/api/Gelbooru.java:140 | over ASCII digits: parseLong/parseInt accept an optionally signed string of the digits 0-9 whose value lies in the type's range, and then give that value; other Unicode digits are rejected (see "## Left out") |
| JavaStrings.ParseLong | src/pe/moe/nori/api/Gelbooru.java:104-106 | parseLong never yields a value outside the 64-bit range |
| JavaStrings.ParseInt | src/pe/moe/nori/api/Gelbooru.java:121-123 | parseInt never yields a value outside the 32-bit range |
| JavaStrings.ParsePrinted | src/pe/moe/nori/ImageViewerActivity.java:186-188 | parsing what Long.toString printed gives the value back whenever it is in range |
| JavaStrings.ToLowerAscii | app/src/main/java/com/cuddlesoft/nori/database/SearchSuggestionProvider.java:75 | lower-casing keeps the length and maps each ASCII capital to its small letter, position by position |
| UriEncode.FirstUnit | src/main/java/com/cuddlesoft/nori/api/Tag.java:137-139 | a string's first code unit is a high surrogate exactly when its first character is supplementary |
| UriEncode.UnitsInjective | src/main/java/com/cuddlesoft/nori/api/Tag.java:137-139 | different strings have different code units, so comparing units decides string equality |
| UriEncode.Utf8 | script.js:7 | encodeURIComponent first turns each scalar value into one to four UTF-8 bytes, as section 3 of RFC 3629 lays out |
| UriEncode.EncodeIsPercentEncoded | script.js:7 | encodeURIComponent emits only unreserved characters and "%XY" triplets |
| UriEncode.Encode | script.js:7 | encodeURIComponent fails only with URIError, never shortens the text, and leaves text of unreserved characters as it is |
| UriEncode.EncodeOkIffWellFormed | script.js:7 | encodeURIComponent throws URIError exactly when the text holds a lone surrogate |
| UriEncode.Utf8RoundTrip | script.js:7 | UTF-8 decoding the bytes of any scalar value gives the value back |
| UriEncode.DecodeEncode | script.js:7 | percent-decoding and UTF-8-decoding the encoding gives back every well-formed string |
| UriEncode.EncodeString | src/pe/moe/nori/api/Gelbooru.java:68 | Uri.encode of a Java string never fails, emits only unreserved characters and "%XY" triplets, and decodes back to the string's code units |
| UriEncode.NoDelimiters | script.js:7 | encoded text never holds '?', '&', '=', '#' or a space, so it cannot end or add a query parameter |
| StringUtils.MergeStringArray | app/src/main/java/com/cuddlesoft/nori/util/StringUtils.java:19-37 | the merge is "" for a null or empty array, and otherwise the elements in order with one separator between neighbours |
| StringUtils.JoinLength | app/src/main/java/com/cuddlesoft/nori/util/StringUtils.java:26-33 | the merged length is the element lengths plus one separator per neighbouring pair |
| StringUtils.MergeThenSplit | app/src/main/java/com/cuddlesoft/nori/util/StringUtils.java:19-37 | merging with " " and splitting on " " gives a non-empty array of non-empty, space-free elements back |
| StringUtils.MergeEmptyNotInverted | app/src/main/java/com/cuddlesoft/nori/util/StringUtils.java:21-23 | the empty array merges to "", which splits to one empty string, so merge is not split's inverse there |
| StringUtils.MergeEmptyLastNotInverted | app/src/main/java/com/cuddlesoft/nori/util/StringUtils.java:27-33 | ["a", ""] merges to "a ", which splits to ["a"]: an empty last element is lost |
| Mailto.Link | script.js:7 | the link is the template with the encoded subject and body in place, and it fails exactly when either field holds a lone surrogate |
| Mailto.EmptyFieldsLink | script.js:7 | empty fields give the bare template "mailto:shinku@dollbooru.org?subject=&body=" |
| Mailto.ParseLinkRoundTrip | script.js:7 | reading the subject and body parameters back out of the link gives the user's text unchanged |
| Mailto.LinkDelimiters | script.js:7 | the link holds exactly one '?' and one '&', both from the template |
| Mailto.OnLoad | script.js:3-6 | the load listener removes itself; it attaches one submit handler when the document has a form named contact, and otherwise throws a TypeError and attaches nothing |
| Mailto.OnSubmit | script.js:6-9 | with the handler attached, a good link sets location.href and prevents this event's default action; a URIError is thrown before either, so the form submits normally; without a handler nothing happens |
| Mailto.AtMostOneHandler | script.js:3-4 | however many load events fire, at most one submit handler is ever attached |
| Mailto.HandlerAttachedOnce | script.js:3-10 | from the initial page, with or without a contact form, at most one submit handler is ever attached |
| Mailto.NoContactFormNeverNavigates | script.js:3-8 | without a contact form no handler is ever attached, so no submit changes the location |
| Mailto.PreventedPerSubmit | script.js:6-9 | preventing the default action belongs to each submit: a good submit prevents its own, and a failing submit after it does not, while the location stays where the good one sent it |
| Parcels.ByteRoundTrip | src/main/java/com/cuddlesoft/nori/api/SearchResult.java:77 | a byte written with writeByte reads back unchanged, one slot later |
| Parcels.ReadByte | src/main/java/com/cuddlesoft/nori/api/SearchResult.java:77 | readByte narrows the stored int to a value in [-128, 127] and advances one slot |
| Tags.Ordinal | src/main/java/com/cuddlesoft/nori/api/Tag.java:133-142 | each of the four tag types has an ordinal below 4 |
| Tags.TypeFromOrdinal | src/main/java/com/cuddlesoft/nori/api/Tag.java:62 | Type.values()[i] succeeds exactly for 0 <= i < 4, and then gives the type whose ordinal is i |
| Tags.NewTag | src/main/java/com/cuddlesoft/nori/api/Tag.java:39-42 | the one-argument constructor keeps the name and makes a general tag |
| Tags.StringHashCode | src/main/java/com/cuddlesoft/nori/api/Tag.java:84-86 | the hash is the polynomial 31*h + unit over the name's UTF-16 units, reduced to a Java int |
| Tags.HashCode | src/main/java/com/cuddlesoft/nori/api/Tag.java:84-86 | hashCode is the name's String.hashCode: the empty name hashes to 0 and a one-unit name to that unit |
| Tags.EqualsHash | src/main/java/com/cuddlesoft/nori/api/Tag.java:75-86 | tags equal by name hash alike, whatever their types |
| Tags.CompareUnits | src/main/java/com/cuddlesoft/nori/api/Tag.java:89-91 | String.compareTo is zero exactly for equal unit sequences, and the unit difference at a first differing unit |
| Tags.CompareTo | src/main/java/com/cuddlesoft/nori/api/Tag.java:89-91 | compareTo is zero exactly for equal names, and swapping the tags negates it |
| Tags.CompareConsistentWithEquals | src/main/java/com/cuddlesoft/nori/api/Tag.java:75-91 | compareTo is zero exactly when equals holds |
| Tags.CompareOrder | src/main/java/com/cuddlesoft/nori/api/Tag.java:89-91 | compareTo is antisymmetric and transitive: a strict total order on names |
| Tags.ReadTag | src/main/java/com/cuddlesoft/nori/api/Tag.java:60-63 | reading a tag consumes two slots |
| Tags.ReadTags | src/main/java/com/cuddlesoft/nori/api/SearchResult.java:76 | reading n array elements gives n tags and consumes three slots per element |
| Tags.ReadTagsElement | src/main/java/com/cuddlesoft/nori/api/SearchResult.java:76 | element i of a read array is a non-null marker at slot 3i followed by the tag read from the two slots after it |
| Tags.ReadTagArray | src/main/java/com/cuddlesoft/nori/api/SearchResult.java:76 | createTypedArray consumes only the length slot for a null array, and the length slot plus three per tag otherwise |
| Tags.TagRoundTrip | src/main/java/com/cuddlesoft/nori/api/Tag.java:60-112 | reading a written tag gives the same name and type, two slots on |
| Tags.BadOrdinal | src/main/java/com/cuddlesoft/nori/api/Tag.java:62 | a stored ordinal outside the enum makes the read throw ArrayIndexOutOfBoundsException |
| Tags.WriteTagArray | src/main/java/com/cuddlesoft/nori/api/SearchResult.java:221 | a typed tag array takes its length slot plus three slots per tag |
| Tags.TagArrayRoundTrip | src/main/java/com/cuddlesoft/nori/api/Tag.java:60-112 | reading a written tag array gives the same tags, in order, and stops right after them |
| Tags.Names | src/main/java/com/cuddlesoft/nori/api/Tag.java:122-124 | the names of the tags, position by position |
| Tags.ArrayAsString | src/main/java/com/cuddlesoft/nori/api/Tag.java:120-127 | arrayAsString is the names joined by single spaces, then trimmed; no tags give "" |
| Tags.ArrayAsStringSplits | src/main/java/com/cuddlesoft/nori/api/Tag.java:114-127 | tags with non-empty names free of trimmable characters come back from the query string by split(" ") |
| SearchResults.New | src/main/java/com/cuddlesoft/nori/api/SearchResult.java:60-65 | a new result holds the given images, query, count and offset, and may have a next page |
| SearchResults.Keep | src/main/java/com/cuddlesoft/nori/api/SearchResult.java:97-102 | CollectionUtils.filter keeps exactly the images satisfying the predicate, never adding any |
| SearchResults.KeepIdempotent | src/main/java/com/cuddlesoft/nori/api/SearchResult.java:97-102 | what survives a filter survives it again |
| SearchResults.KeepAll | src/main/java/com/cuddlesoft/nori/api/SearchResult.java:97-102 | a filter every image passes changes nothing |
| SearchResults.RemoveAll | src/main/java/com/cuddlesoft/nori/api/SearchResult.java:94 | removeAll's value holds exactly the list's tags whose names none of the removed tags share |
| SearchResults.FilterTagsAsWritten | src/main/java/com/cuddlesoft/nori/api/SearchResult.java:85-103 | as written: null or empty filter leaves the result alone; otherwise every image sharing a tag with the whole filter list is removed, query tags included, and only the images change |
| SearchResults.FilterTags | src/main/java/com/cuddlesoft/nori/api/SearchResult.java:85-103 | corrected: a null or empty filter leaves the result alone, and filtering changes nothing but the image list |
| SearchResults.FilterTagsKeeps | src/main/java/com/cuddlesoft/nori/api/SearchResult.java:91-102 | corrected: the images kept are exactly those no filter tag outside the query blocks, in their order |
| SearchResults.QueryTagNotExempted | src/main/java/com/cuddlesoft/nori/api/SearchResult.java:93-94 | searching "a" and filtering "a" empties the result as written, while the intended filter keeps the image |
| SearchResults.FilterTagsIdempotent | src/main/java/com/cuddlesoft/nori/api/SearchResult.java:85-103 | filtering by tags twice is filtering once |
| SearchResults.FilterRatings | src/main/java/com/cuddlesoft/nori/api/SearchResult.java:110-125 | null or empty ratings leave the result alone; otherwise an image survives exactly when its rating is not listed, and only the images change |
| SearchResults.FilterRatingsKeeps | src/main/java/com/cuddlesoft/nori/api/SearchResult.java:117-124 | the rating filter works image by image: filtering a + b is filtering a, then b |
| SearchResults.FilterRatingsIdempotent | src/main/java/com/cuddlesoft/nori/api/SearchResult.java:110-125 | filtering by ratings twice is filtering once |
| SearchResults.FilterRatingsNothingToRemove | src/main/java/com/cuddlesoft/nori/api/SearchResult.java:119-124 | a result with no listed rating comes back unchanged |
| SearchResults.AddImages | src/main/java/com/cuddlesoft/nori/api/SearchResult.java:136-141 | the new images follow the old ones unchanged, the offset is replaced, and nothing else changes |
| SearchResults.AddImagesTwice | src/main/java/com/cuddlesoft/nori/api/SearchResult.java:136-141 | adding two pages is adding their concatenation, with the last offset |
| SearchResults.OnLastPage | src/main/java/com/cuddlesoft/nori/api/SearchResult.java:206-208 | onLastPage clears hasNextPage and nothing else |
| SearchResults.LastPageIsFinal | src/main/java/com/cuddlesoft/nori/api/SearchResult.java:196-208 | once the last page is reached, neither adding images, filtering nor onLastPage brings a next page back |
| SearchResults.AddImagesAsWritten | src/main/java/com/cuddlesoft/nori/api/SearchResult.java:61-138 | as written: on the fixed-size list Arrays.asList builds, adding any image throws UnsupportedOperationException; otherwise it appends |
| SearchResults.SecondPageRejected | src/main/java/com/cuddlesoft/nori/api/SearchResult.java:60-141 | a result fresh from the constructor rejects any non-empty second page |
| SearchResults.KeepAsWritten | src/main/java/com/cuddlesoft/nori/api/SearchResult.java:61-102 | as written: filtering the fixed-size list Arrays.asList builds throws UnsupportedOperationException exactly when some image fails the predicate; when it succeeds there, nothing was removed |
| SearchResults.FilterOnFreshResultRejected | src/main/java/com/cuddlesoft/nori/api/SearchResult.java:60-102 | a result fresh from the constructor throws as soon as a filter would remove any image |
| SearchResults.WriteImageList | src/main/java/com/cuddlesoft/nori/api/SearchResult.java:218 | writeTypedList takes a size slot plus two slots per image |
| SearchResults.ReadImages | src/main/java/com/cuddlesoft/nori/api/SearchResult.java:73 | reading n list elements gives n images and consumes two slots per element |
| SearchResults.ReadImagesElement | src/main/java/com/cuddlesoft/nori/api/SearchResult.java:73 | element i of a read list is a non-null marker at slot 2i followed by the slot holding that image |
| SearchResults.ReadImageList | src/main/java/com/cuddlesoft/nori/api/SearchResult.java:73 | createTypedArrayList consumes only the size slot for a null list, and the size slot plus two per image otherwise |
| SearchResults.ImageListRoundTrip | src/main/java/com/cuddlesoft/nori/api/SearchResult.java:73-218 | reading a written image list gives the same images in order and stops right after them |
| SearchResults.WriteSearchResult | src/main/java/com/cuddlesoft/nori/api/SearchResult.java:217-223 | the parcel takes five slots plus two per image and three per query tag |
| SearchResults.ReadSearchResult | src/main/java/com/cuddlesoft/nori/api/SearchResult.java:72-78 | a result read from a parcel can be written again, and the parcel held at least its five fixed slots plus two per image and three per query tag |
| SearchResults.ParcelRoundTrip | src/main/java/com/cuddlesoft/nori/api/SearchResult.java:72-223 | reading a written result gives back its images, count, offset, query and hasNextPage |
| BaseApiClient.DefaultQuery | src/main/java/com/cuddlesoft/nori/api/clients/BaseAPIClient.java:56-58 | the default query is "rating:safe" |
| BaseApiClient.TerminatorBlocks | src/main/java/com/cuddlesoft/nori/api/clients/BaseAPIClient.java:25 | '.' in the pattern matches no line terminator, so no lazy run crosses one |
| BaseApiClient.ScanImg | src/main/java/com/cuddlesoft/nori/api/clients/BaseAPIClient.java:25 | the inner lazy run "img/.+?/" closes at the first position that completes it, and at none earlier |
| BaseApiClient.ScanBody | src/main/java/com/cuddlesoft/nori/api/clients/BaseAPIClient.java:25 | the outer lazy run ".+?" stops at the first position where an alternative matches; "illust_id=" wins over "img/…/" there |
| BaseApiClient.Find | src/main/java/com/cuddlesoft/nori/api/clients/BaseAPIClient.java:40-41 | Matcher.find returns the leftmost match, with the shortest lazy run, and reports no match only when none exists |
| BaseApiClient.DigitRun | src/main/java/com/cuddlesoft/nori/api/clients/BaseAPIClient.java:25 | group 1 "\d+" is the maximal digit run, non-empty when a digit starts it |
| BaseApiClient.PixivIdFromUrl | src/main/java/com/cuddlesoft/nori/api/clients/BaseAPIClient.java:33-47 | null or empty URLs give null; an id is a non-empty digit string from a URL on a Pixiv host; null for a URL means the pattern occurs nowhere in it |
| BaseApiClient.IllustPageId | src/main/java/com/cuddlesoft/nori/api/clients/BaseAPIClient.java:33-47 | the Pixiv page "http://www.pixiv.net/member_illust.php?mode=medium&illust_id=123" gives the id "123" |
| BaseApiClient.NoHostNoId | src/main/java/com/cuddlesoft/nori/api/clients/BaseAPIClient.java:25-46 | a URL with no Pixiv host never yields an id |
| GelbooruClient.SearchUrl | src/main/java/com/cuddlesoft/nori/api/clients/Gelbooru.java:33-36 | for an endpoint without '?', the search URL reads back as the endpoint's index.php and exactly the parameters page, s, q, tags, pid and limit |
| GelbooruClient.WebUrl | src/main/java/com/cuddlesoft/nori/api/clients/Gelbooru.java:39-41 | for an endpoint without '?' and an id without '&', the web URL reads back as the endpoint's index.php with page=post, s=view and that id |
| GelbooruClient.SearchUrlParams | src/main/java/com/cuddlesoft/nori/api/clients/Gelbooru.java:33-36 | the search URL reads back as the endpoint's index.php with page, s, q, tags, pid and limit; the tags decode back to the query and pid is kept 0-based |
| GelbooruClient.WebUrlParams | src/main/java/com/cuddlesoft/nori/api/clients/Gelbooru.java:39-41 | the web URL reads back as the endpoint's index.php with page=post, s=view and the id unchanged |
| Urls.ParseUrl | src/main/java/com/cuddlesoft/nori/api/clients/Gelbooru.java:35 | a URL reads as the part before its first '?' and its parameters, and fails exactly when there is no '?' |
| Urls.QueryRoundTrip | src/main/java/com/cuddlesoft/nori/api/clients/Gelbooru.java:35 | reading a query built from parameters free of '&' (and of '=' in keys) gives exactly those parameters back |
| Urls.UrlRoundTrip | src/main/java/com/cuddlesoft/nori/api/clients/Gelbooru.java:35 | a URL built from a '?'-free base and such parameters reads back as that base and those parameters |
| Urls.DecimalIsSafe | src/main/java/com/cuddlesoft/nori/api/clients/Gelbooru.java:35 | a number printed by %d holds no '&', '=' or '?' |
| Urls.EncodedIsSafe | src/main/java/com/cuddlesoft/nori/api/clients/Gelbooru.java:35 | text from Uri.encode holds no '&', '=' or '?' |
| XmlEvents.AttributeValue | src/pe/moe/nori/api/Danbooru.java:190 | getAttributeValue is null exactly when no attribute has the name, and otherwise the value of one that does |
| XmlEvents.NextText | src/pe/moe/nori/api/Danbooru.java:160 | nextText on a start tag reads the element's text and leaves the parser on its end tag; an element that ends at once gives "" |
| PeImages.RatingCode | src/pe/moe/nori/api/DanbooruLegacy.java:195-201 | "s", "q" and "e" map to safe, questionable and explicit, each exactly for its letter; no letter maps to undefined |
| JavaStrings.ParseInt32 | src/pe/moe/nori/api/DanbooruLegacy.java:169 | over ASCII digits: Integer.parseInt succeeds exactly when the text is an int written with the digits 0-9, and gives that int |
| PostAttributes.ParentId | src/pe/moe/nori/api/DanbooruLegacy.java:189-190 | an empty parent_id means no parent (-1); anything else goes through Long.parseLong |
| PostAttributes.ApplyAttribute | src/pe/moe/nori/api/DanbooruLegacy.java:161-223 | an unknown attribute changes nothing; only numeric fields can throw, and only NumberFormatException; an unknown rating letter gives undefined where the client has that fallback and leaves the field otherwise; has_comments is true exactly for "true" |
| PostAttributes.ApplyAttributes | src/pe/moe/nori/api/DanbooruLegacy.java:161-223 | the attribute loop fails only with NumberFormatException |
| PostAttributes.UnknownAttributesIgnored | src/pe/moe/nori/api/DanbooruLegacy.java:161-223 | a post whose attributes are all unknown leaves the image as it was |
| PostAttributes.TextAttributesSucceed | src/pe/moe/nori/api/DanbooruLegacy.java:161-223 | a post without numeric attributes always yields an image |
| PostAttributes.TagsAttribute | src/pe/moe/nori/api/DanbooruLegacy.java:192-193 | a tags attribute of single-space-separated, untrimmable tags gives exactly those tags |
| PostAttributes.UrlAttribute | src/pe/moe/nori/api/Shimmie.java:82-90 | one attribute keeps the file and preview URLs carrying the client's prefix |
| PostAttributes.UrlsPrefixed | src/pe/moe/nori/api/Shimmie.java:77-131 | every file_url and preview_url the loop stores starts with the prefix (Shimmie: the endpoint) |
| PostAttributes.NoUndefinedWithoutFallback | src/pe/moe/nori/api/Gelbooru.java:147-155 | without the fallback an unknown letter leaves the rating alone, so it never becomes undefined |
| AttributeResponses.RootAttributesEffect | src/pe/moe/nori/api/DanbooruLegacy.java:141-155 | the root tag is read without exception exactly when no attribute VALUE is "count" or "offset"; it never touches the images, and count and offset change only when the client forces 200 and 0 |
| AttributeResponses.StepOk | src/pe/moe/nori/api/DanbooruLegacy.java:139-246 | one event fails exactly when it is a post that cannot be built or a root whose value names a counter |
| AttributeResponses.Parse | src/pe/moe/nori/api/DanbooruLegacy.java:123-248 | the loop succeeds exactly when every post can be built and no root names a counter; then it holds one image per post, in document order, and count and offset are 200 and 0 if some root forced them, 0 otherwise |
| AttributeResponses.ParseResponse | src/pe/moe/nori/api/DanbooruLegacy.java:59-126 | a null (or, where checked, empty) body gives a null result; otherwise the request succeeds exactly when the loop does, with the loop's result |
| LegacyClient.RequiresAuthentication | src/pe/moe/nori/api/DanbooruLegacy.java:254-256 | authentication is required exactly when both username and password were given |
| LegacyClient.FirstPageDropsPage | src/pe/moe/nori/api/DanbooruLegacy.java:263-300 | the first-page URL has the paged URL's parameters with only the page parameter taken out |
| LegacyClient.PagedUrl | src/pe/moe/nori/api/DanbooruLegacy.java:263-278 | for an endpoint without '?', the paged URL reads back as the subtype's path and exactly its leading parameters, the tags, the page parameter and the limit |
| LegacyClient.FirstPageUrl | src/pe/moe/nori/api/DanbooruLegacy.java:285-300 | for an endpoint without '?', the first-page URL reads back as the subtype's path and exactly its leading parameters, the tags and the limit |
| LegacyClient.SearchUrlsRead | src/pe/moe/nori/api/DanbooruLegacy.java:266-293 | both URLs read back as the subtype's path and their parameters; the tags decode to the caller's text; the page reads as pid + 1 in int arithmetic (Danbooru, Shimmie2) or pid (Gelbooru) |
| LegacyClient.ParamsSafe | src/pe/moe/nori/api/DanbooruLegacy.java:266-271 | every parameter the client writes reads back intact: no '&' and no '=' in a key |
| LegacyClient.GelbooruFixup | src/pe/moe/nori/api/DanbooruLegacy.java:226-238 | for Gelbooru the sample becomes the file with its size, the preview is 150x150, there is no parent and no comments; the rest is kept |
| LegacyClient.PostImage | src/pe/moe/nori/api/DanbooruLegacy.java:156-241 | a post yields an image exactly when its attribute loop succeeds, with the Gelbooru fix-up applied only for Gelbooru |
| LegacyClient.ParseSearchResult | src/pe/moe/nori/api/DanbooruLegacy.java:123-248 | a null or empty body gives null; otherwise one image per post in document order, with count and offset 200 and 0 for Shimmie2 once a root has attributes, 0 otherwise |
| LegacyClient.GelbooruImagesFixed | src/pe/moe/nori/api/DanbooruLegacy.java:226-238 | every Gelbooru image has its sample set to the file, a 150-wide preview, no parent and no comments |
| ShimmieClient.PagedUrl | src/pe/moe/nori/api/Shimmie.java:33-36 | for an endpoint without '?', the paged URL reads back as the find_posts path with the tags, page = pid + 1 and the limit |
| ShimmieClient.FirstPageUrl | src/pe/moe/nori/api/Shimmie.java:27-30 | for an endpoint without '?', the first-page URL reads back as the find_posts path with the tags and the limit |
| ShimmieClient.PostImage | src/pe/moe/nori/api/Shimmie.java:72-157 | a post fails only with NumberFormatException, and every image built from it has file, preview and sample URLs starting with the endpoint, the sample equal to the file, parent -1, no comments, the web URL "/post/view/" + id, and a 150x150 preview unless both preview dimensions were given |
| ShimmieClient.ParseSearchResult | src/pe/moe/nori/api/Shimmie.java:39-164 | a null or empty body gives null; otherwise one image per post in document order, and count and offset 200 and 0 exactly when some root tag has no attributes |
| ShimmieClient.ImagesHaveShimmieShape | src/pe/moe/nori/api/Shimmie.java:133-151 | every image of a parsed response has that Shimmie shape |
| PeGelbooruClient.EndpointSplit | src/pe/moe/nori/api/Gelbooru.java:34 | API_ENDPOINT already carries "?page=dapi", so the format's fields join it with '&' |
| PeGelbooruClient.SafeParams | src/pe/moe/nori/api/Gelbooru.java:68-78 | every parameter the client writes reads back intact |
| PeGelbooruClient.SearchUrl | src/pe/moe/nori/api/Gelbooru.java:67-80 | both search URLs read back as index.php with page=dapi and exactly the remaining parameters: s, q, the tags, the page when one is given, and the limit |
| PeGelbooruClient.SearchUrlRead | src/pe/moe/nori/api/Gelbooru.java:67-80 | the search URL reads back as index.php with page=dapi, s, q, the tags, the page as given (0-based) and the limit; the tags decode to the caller's text |
| PeGelbooruClient.PostImage | src/pe/moe/nori/api/Gelbooru.java:110-169 | a post fails only with NumberFormatException, never gets the undefined rating, and a post with no known attribute gives a blank image |
| PeGelbooruClient.ParseSearchResult | src/pe/moe/nori/api/Gelbooru.java:82-176 | only a null body gives null (an empty one is parsed); otherwise one image per post in document order, with count and offset 0 |
| PeGelbooruClient.NoUndefinedRating | src/pe/moe/nori/api/Gelbooru.java:147-154 | no image of a response has the undefined rating: an unknown letter leaves it null |
| Base64.SymbolRoundTrip | src/pe/moe/nori/api/Danbooru.java:70 | each sextet's symbol of the RFC 4648 alphabet reads back as that sextet, and is neither padding nor a line feed |
| Base64.Encode | src/pe/moe/nori/api/Danbooru.java:70 | the unwrapped encoding has four characters per started group of three bytes and no line feed |
| Base64.QuadRoundTrip | src/pe/moe/nori/api/Danbooru.java:70 | four characters of three bytes decode to those bytes |
| Base64.TailRoundTrip | src/pe/moe/nori/api/Danbooru.java:70 | a padded last group decodes to its one or two bytes |
| Base64.DecodeEncode | src/pe/moe/nori/api/Danbooru.java:70 | decoding undoes encoding, for every byte string |
| Base64.LinesUnwrap | src/pe/moe/nori/api/Danbooru.java:70 | Base64.DEFAULT wrapping only adds line feeds, ends non-empty text with one, and keeps every line at most 76 characters |
| Base64.EncodeToString | src/pe/moe/nori/api/Danbooru.java:70 | encodeToString(bytes, DEFAULT) decodes back to the bytes once its line feeds are removed, and ends in a line feed for non-empty input |
| DanbooruClient.Utf8BytesAppend | src/pe/moe/nori/api/Danbooru.java:70 | getBytes of a concatenation is the concatenation of the bytes |
| DanbooruClient.Headers | src/pe/moe/nori/api/Danbooru.java:66-75 | an Authorization header exists exactly when both username and API key are set, it is the only header, and it decodes to the bytes of "username:apiKey" |
| DanbooruClient.CredentialsRecoverable | src/pe/moe/nori/api/Danbooru.java:70 | the header's bytes are the username's, one ':' and the key's; for a username without ':' the first 0x3A byte marks its end |
| DanbooruClient.PagedUrl | src/pe/moe/nori/api/Danbooru.java:236-239 | the paged URL reads back as /posts.xml with exactly the tags, the page pid + 1 in int arithmetic and the limit |
| DanbooruClient.FirstPageUrl | src/pe/moe/nori/api/Danbooru.java:242-245 | the first-page URL reads back as /posts.xml with exactly the tags and the limit |
| DanbooruClient.SearchUrlsRead | src/pe/moe/nori/api/Danbooru.java:236-245 | both URLs read back as /posts.xml with their parameters; the page is pid + 1 in int arithmetic and the tags decode to the caller's text |
| DanbooruClient.ApplyElement | src/pe/moe/nori/api/Danbooru.java:157-216 | a field element can only fail with NumberFormatException, and only for a number field |
| DanbooruClient.ElementFields | src/pe/moe/nori/api/Danbooru.java:157-216 | URL elements are prefixed with the endpoint, fixing the preview at 150x150 and the sample at 850x850; a rating is always set, undefined exactly for letters other than s, q, e; comments exist exactly for a non-empty last-commented-at; ids fail exactly when Long.parseLong does; unknown elements change nothing |
| DanbooruClient.ApplyElementFailsAlike | src/pe/moe/nori/api/Danbooru.java:157-216 | whether an element's text parses never depends on the image |
| DanbooruClient.Assign | src/pe/moe/nori/api/Danbooru.java:142-216 | a field assignment before any post throws NullPointerException; otherwise it replaces the current image, and the added one with it, without adding images |
| DanbooruClient.Loop | src/pe/moe/nori/api/Danbooru.java:145-225 | a completed loop adds exactly one image per </post> end tag and leaves count and offset alone |
| DanbooruClient.Parse | src/pe/moe/nori/api/Danbooru.java:127-228 | a null or empty body gives null; otherwise one image per </post>, with count and offset 0 |
| DanbooruClient.LoopPost | src/pe/moe/nori/api/Danbooru.java:153-220 | one whole post adds the image its field elements describe |
| DanbooruClient.DocumentImages | src/pe/moe/nori/api/Danbooru.java:145-225 | a run of posts whose fields all parse adds exactly their images, in order |
| DanbooruClient.DocumentParses | src/pe/moe/nori/api/Danbooru.java:127-228 | a response in the API's shape parses to exactly the images its posts describe, in order, with count and offset 0 |
| DanbooruClient.FieldAfterPostChangesIt | src/pe/moe/nori/api/Danbooru.java:153-220 | a field element after a </post> still changes the added image, since the list holds the same object |
| ServiceSettingsProvider.WriteSettings | src/pe/moe/nori/providers/ServiceSettingsProvider.java:131-142 | the parcel holds id, name, type, subtype, API URL and the authentication flag byte, followed by both credentials exactly when the flag is set |
| ServiceSettingsProvider.ReadSettings | src/pe/moe/nori/providers/ServiceSettingsProvider.java:82-93 | fields are read back in the written order, and credentials only when the flag byte is 1; a read past the end of the parcel is reported as an error (see "## Left out") |
| ServiceSettingsProvider.ParcelRoundTrip | src/pe/moe/nori/providers/ServiceSettingsProvider.java:82-93 | reading what writeToParcel wrote gives back every field (credentials exactly when authentication is required) and stops right after the written slots |
| ServiceSettingsProvider.SubtypeCode | src/pe/moe/nori/providers/ServiceSettingsProvider.java:22-24 | each DanbooruLegacy dialect has its own stored subtype code, 0 for Danbooru, 1 for Gelbooru, 2 for Shimmie2 |
| ServiceSettingsProvider.CreateClient | src/pe/moe/nori/providers/ServiceSettingsProvider.java:102-118 | a client exists exactly for type Danbooru or type DanbooruLegacy with subtype 0 to 2; Danbooru gets the stored credentials, DanbooruLegacy gets the stored URL and the dialect whose code is the subtype |
| ServiceSettingsProvider.CreateClientInvertsCode | src/pe/moe/nori/providers/ServiceSettingsProvider.java:107-114 | every DanbooruLegacy dialect can be reached: its code selects exactly that dialect on the stored URL |
| ServiceSettingsProvider.ToString | src/pe/moe/nori/providers/ServiceSettingsProvider.java:121-123 | the label is the name that survives the parcel form: dropping the credentials never changes it |
| ServiceSettingsProvider.LabelIsCreatedName | src/pe/moe/nori/providers/ServiceSettingsProvider.java:121-123 | the service list labels a row loaded from the table with its name column, and settings read back from a parcel keep the label they were written with |
| ServiceSettingsProvider.Load | src/pe/moe/nori/providers/ServiceSettingsProvider.java:248-260 | a table row loads with its name, URL and credentials; authentication is required exactly when req_auth is 1 |
| ServiceSettingsProvider.LoadAll | src/pe/moe/nori/providers/ServiceSettingsProvider.java:232-269 | the loader returns one settings value per row, in table order |
| ServiceSettingsProvider.SeededLoads | src/pe/moe/nori/providers/ServiceSettingsProvider.java:165-182 | a fresh database lists exactly one service, Safebooru, needing no authentication and opening a Gelbooru-dialect DanbooruLegacy client on http://safebooru.org |
| ResourceTypeDetect.FirstStop | src/pe/moe/nori/services/ResourceTypeDetectService.java:52-95 | the probing stops at the first path that answers 200 or cannot form a URL, and at the end of the list when none does |
| ResourceTypeDetect.FirstStopAt | src/pe/moe/nori/services/ResourceTypeDetectService.java:52-95 | no path before the stopping position ends the probing, and the stopping position does or is the end |
| ResourceTypeDetect.Detected | src/pe/moe/nori/services/ResourceTypeDetectService.java:66-78 | a success replaces the API URL by the probed base URL and keeps every field other than type, subtype and URL |
| ResourceTypeDetect.DetectedClient | src/pe/moe/nori/services/ResourceTypeDetectService.java:66-78 | the settings a success at each path reports open the client for the API that path belongs to: Danbooru 2 for /posts.xml, DanbooruLegacy in the Danbooru, Gelbooru or Shimmie2 dialect for the other three, on the base URL (with /post.xml corrected as under Findings) |
| ResourceTypeDetect.HandleIntent | src/pe/moe/nori/services/ResourceTypeDetectService.java:37-99 | as written: a null URL throws; a missing scheme or host gives one INVALID_URI broadcast and no probe; otherwise the paths are probed on scheme://host up to the first stop and one broadcast reports RESOURCE_NOT_FOUND, INVALID_URI, or OK with the settings as the service fills them in (the carried type kept at /post.xml); a non-HTTP connection throws ClassCastException |
| ResourceTypeDetect.ProbePaths | src/pe/moe/nori/services/ResourceTypeDetectService.java:51-95 | the paths are opened in probe order up to and including the first that answers 200, cannot form a URL or is not HTTP, and all four when none does |
| ResourceTypeDetect.Report | src/pe/moe/nori/services/ResourceTypeDetectService.java:66-95 | the one broadcast: RESOURCE_NOT_FOUND past the last path, INVALID_URI for a malformed URL, OK with the detected settings for a 200, and an exception instead for a non-HTTP connection |
| ResourceTypeDetect.HandleIntentCorrected | src/pe/moe/nori/services/ResourceTypeDetectService.java:37-99 | corrected: the same probing and broadcasts, with a success at /post.xml reporting DanbooruLegacy in the Danbooru dialect |
| ResourceTypeDetect.DetectedAsWritten | src/pe/moe/nori/services/ResourceTypeDetectService.java:66-78 | as written: a success replaces the URL by the base URL and changes nothing but type, subtype and URL; at /post.xml it keeps the carried type and subtype, and at every other path it agrees with the corrected detection |
| SettingChangesReceiver.Insert | src/pe/moe/nori/services/ServiceSettingChangesReceiver.java:52-69 | a settings value without a name or URL inserts nothing; otherwise one row is appended under the next id, the earlier rows are kept, and the row has the name, the URL and req_auth 1 exactly when authentication is required, with no credentials otherwise |
| SettingChangesReceiver.Upsert | src/pe/moe/nori/services/ServiceSettingChangesReceiver.java:43-79 | a settings change sends exactly one update broadcast; a service with an id is left as stored, since updating is not implemented |
| SettingChangesReceiver.OnReceive | src/pe/moe/nori/services/ServiceSettingChangesReceiver.java:19-25 | only a detection result whose status is OK changes anything (a missing status reads as -1), and such a result without settings throws |
| SettingChangesReceiver.InsertKeepsValid | src/pe/moe/nori/services/ServiceSettingChangesReceiver.java:68-69 | inserting keeps the row ids ascending and below the next id |
| SettingChangesReceiver.InsertThenLoad | src/pe/moe/nori/services/ServiceSettingChangesReceiver.java:52-69 | a new service becomes one more row at the end, the others unchanged, and loading it gives back the settings under their new id, with credentials only when authentication is required |
| ServiceSettingsActivity.OnTextChanged | src/pe/moe/nori/ServiceSettingsActivity.java:404-413 | the credential fields are shown exactly when the URI starts with the Danbooru URL, and no text is cleared |
| ServiceSettingsActivity.OnClick | src/pe/moe/nori/ServiceSettingsActivity.java:365-397 | a form with an empty name or URI sends nothing; otherwise the settings sent for detection carry the edited service's id or -1, and credentials only when the credential fields are shown |
| ServiceSettingsActivity.EditUnchangedResends | src/pe/moe/nori/ServiceSettingsActivity.java:341-397 | opening a stored Danbooru service with credentials and pressing OK sends the same service again, with the same id, name, URL and credentials |
| ServiceSettingsActivity.StatusMessage | src/pe/moe/nori/ServiceSettingsActivity.java:38-49 | the detection result shows no toast exactly for OK, "No resource found" exactly for RESOURCE_NOT_FOUND and "Invalid URL" exactly for INVALID_URI |
| ServiceSettingsActivity.OnItemClick | src/pe/moe/nori/ServiceSettingsActivity.java:141-166 | the clicked row opens as the loader would load it, except that the credentials are dropped when req_auth is not 1 |
| ServiceSettingsActivity.LegacyDanbooruMisdetected | src/pe/moe/nori/services/ResourceTypeDetectService.java:66-78 | as written, a new service found only at /post.xml keeps type 0 and so opens the Danbooru 2 client instead of the server that was found |
| ServiceSettingsActivity.LegacyDanbooruDetected | src/pe/moe/nori/services/ResourceTypeDetectService.java:66-78 | corrected, the same server opens the DanbooruLegacy client in its Danbooru dialect on the detected base URL |
| ApiSettingsDatabase.RowRoundTrip | app/src/main/java/com/cuddlesoft/nori/database/APISettingsDatabase.java:60-83 | a settings value written to a row and read back keeps its type, name, endpoint and both credentials, and the row carries the given id |
| ApiSettingsDatabase.Fresh | app/src/main/java/com/cuddlesoft/nori/database/APISettingsDatabase.java:187-200 | the table a new installation starts with satisfies the store's invariant (ids ascending and below the next id) |
| ApiSettingsDatabase.FreshHoldsSafebooru | app/src/main/java/com/cuddlesoft/nori/database/APISettingsDatabase.java:193-195 | a fresh database lists exactly one service, Safebooru on http://safebooru.org with the GELBOORU type and no credentials, under id 1 |
| ApiSettingsDatabase.Find | app/src/main/java/com/cuddlesoft/nori/database/APISettingsDatabase.java:94 | the row lookup by id finds a row with that id, or reports that no row has it |
| ApiSettingsDatabase.Get | app/src/main/java/com/cuddlesoft/nori/database/APISettingsDatabase.java:91-104 | get is null exactly when no row has the id, and otherwise gives the settings stored in a row with that id |
| ApiSettingsDatabase.GetAt | app/src/main/java/com/cuddlesoft/nori/database/APISettingsDatabase.java:91-104 | in a valid table get of any row's id gives that row's settings |
| ApiSettingsDatabase.GetAll | app/src/main/java/com/cuddlesoft/nori/database/APISettingsDatabase.java:111-127 | getAll lists every row once, as its id and settings, in strictly ascending id order |
| ApiSettingsDatabase.Insert | app/src/main/java/com/cuddlesoft/nori/database/APISettingsDatabase.java:135-143 | insert appends the settings under the next id and returns it, returns -1 and changes nothing when the name or endpoint is null, and broadcasts one notification either way |
| ApiSettingsDatabase.Update | app/src/main/java/com/cuddlesoft/nori/database/APISettingsDatabase.java:152-161 | update rewrites the row with the id and returns 1, or returns 0 and changes no row when the id is missing; storing a NULL name or URL into an existing row throws a constraint error; rows, their order and the next id are kept, and one notification is sent |
| ApiSettingsDatabase.Delete | app/src/main/java/com/cuddlesoft/nori/database/APISettingsDatabase.java:169-177 | delete removes the row with the id and returns 1, or returns 0 and leaves the rows as they were; no other row is changed or added, and one notification is sent |
| ApiSettingsDatabase.InsertKeepsValid | app/src/main/java/com/cuddlesoft/nori/database/APISettingsDatabase.java:135-143 | inserting keeps the ids unique, ascending and below the next id |
| ApiSettingsDatabase.InsertThenGet | app/src/main/java/com/cuddlesoft/nori/database/APISettingsDatabase.java:91-143 | the id insert returns was unused before, is positive, and get of it gives back the inserted settings |
| ApiSettingsDatabase.UpdateKeepsValid | app/src/main/java/com/cuddlesoft/nori/database/APISettingsDatabase.java:152-161 | update keeps every row's id and so the store's invariant |
| ApiSettingsDatabase.UpdateThenGet | app/src/main/java/com/cuddlesoft/nori/database/APISettingsDatabase.java:152-161 | updating an existing id changes one row and get then returns the new settings; an absent id changes no row; every other id reads as before |
| ApiSettingsDatabase.RemoveAt | app/src/main/java/com/cuddlesoft/nori/database/APISettingsDatabase.java:172 | deleting the row at a position keeps every other row, in order |
| ApiSettingsDatabase.DeleteKeepsValid | app/src/main/java/com/cuddlesoft/nori/database/APISettingsDatabase.java:169-177 | deleting keeps the ids unique, ascending and below the next id |
| ApiSettingsDatabase.DeleteRemoves | app/src/main/java/com/cuddlesoft/nori/database/APISettingsDatabase.java:169-177 | after delete the id reads as null, and delete reports one row removed exactly when the id was present |
| ApiSettingsDatabase.DeleteKeepsOthers | app/src/main/java/com/cuddlesoft/nori/database/APISettingsDatabase.java:169-177 | delete leaves every other id reading as before |
| ApiSettingsDatabase.UniqueIds | app/src/main/java/com/cuddlesoft/nori/database/APISettingsDatabase.java:190 | in a valid table no two rows share an id, as the primary key demands |
| ApiSettingsDatabase.OneNotificationEach | app/src/main/java/com/cuddlesoft/nori/database/APISettingsDatabase.java:141-183 | insert, update and delete each broadcast exactly one update notification, whatever they change |
| ApiSettingsActivity.SettingsFor | app/src/main/java/com/cuddlesoft/nori/APISettingsActivity.java:119-121 | the settings a successful detection builds can always be stored: name and endpoint are the dialog's texts, never null |
| ApiSettingsActivity.Message | app/src/main/java/com/cuddlesoft/nori/APISettingsActivity.java:134-140 | each of the three failure codes shows its own toast, and success or an unrecognised code shows none |
| ApiSettingsActivity.EditService | app/src/main/java/com/cuddlesoft/nori/APISettingsActivity.java:102-153 | editing registers one more receiver for exactly this request and hands the URL to detection, without touching the database, the toasts or the list |
| ApiSettingsActivity.AddService | app/src/main/java/com/cuddlesoft/nori/APISettingsActivity.java:96-99 | adding is editing with the insert row id: one more waiting request, earlier ones kept |
| ApiSettingsActivity.Receive | app/src/main/java/com/cuddlesoft/nori/APISettingsActivity.java:113-140 | a failure shows its toast and stores nothing; a success stores the settings and shows nothing, and throws exactly when the reported API type is no APIType ordinal |
| ApiSettingsActivity.Deliver | app/src/main/java/com/cuddlesoft/nori/APISettingsActivity.java:111-147 | a failure leaves the database as it was and shows its toast once per waiting request; a success with a valid type shows no toast; an invalid type throws at the first receiver |
| ApiSettingsActivity.OnBroadcast | app/src/main/java/com/cuddlesoft/nori/APISettingsActivity.java:111-147 | after a detection result every receiver has unregistered, and the probes and the list are unchanged; a failure changes no row |
| ApiSettingsActivity.AddThenDetectedInserts | app/src/main/java/com/cuddlesoft/nori/APISettingsActivity.java:96-133 | adding a service whose type is detected inserts its settings under the next id, which the database then returns them for, with no toast |
| ApiSettingsActivity.EditThenDetectedUpdates | app/src/main/java/com/cuddlesoft/nori/APISettingsActivity.java:101-133 | editing a stored service whose type is detected overwrites exactly that row: it reads back as the new settings and every other id reads as before |
| ApiSettingsActivity.FailureStoresNothing | app/src/main/java/com/cuddlesoft/nori/APISettingsActivity.java:134-145 | a failed detection keeps the database, keeps the earlier toasts and adds its message once per waiting request |
| ApiSettingsActivity.ResultConsumedOnce | app/src/main/java/com/cuddlesoft/nori/APISettingsActivity.java:142-143 | once a result has been handled, a later broadcast finds no receiver and changes nothing |
| ApiSettingsActivity.RemoveSetting | app/src/main/java/com/cuddlesoft/nori/APISettingsActivity.java:67-76 | removing a service sends one notification and leaves the receivers, toasts and list alone |
| ApiSettingsActivity.RemoveSettingRemoves | app/src/main/java/com/cuddlesoft/nori/APISettingsActivity.java:67-76 | removing a service deletes exactly its row: its id is gone and every other id reads as before |
| ApiSettingsActivity.OnLoadFinished | app/src/main/java/com/cuddlesoft/nori/APISettingsActivity.java:227-230 | after a load the list has one entry per row, in strictly ascending id order |
| ApiSettingsActivity.OnLoaderReset | app/src/main/java/com/cuddlesoft/nori/APISettingsActivity.java:233-236 | a loader reset drops the list and keeps the database |
| ApiSettingsActivity.Count | app/src/main/java/com/cuddlesoft/nori/APISettingsActivity.java:168-173 | the row count is the list's size, or 0 while there is no list |
| ApiSettingsActivity.OnItemClick | app/src/main/java/com/cuddlesoft/nori/APISettingsActivity.java:239-243 | a click opens the edit dialog on the id and settings at that position, and throws exactly when there is no list or the position is outside it |
| ApiSettingsActivity.LoadedItemIsStored | app/src/main/java/com/cuddlesoft/nori/APISettingsActivity.java:176-243 | after a load, clicking any row opens the dialog on a stored id with exactly the settings stored under it |
| EditApiSettingDialog.OnTextChanged | app/src/main/java/com/cuddlesoft/nori/fragment/EditAPISettingDialogFragment.java:196-208 | a URI starting with http://danbooru.donmai.us shows both credential fields and keeps their text; any other URI empties and hides them, unless the username field is already gone |
| EditApiSettingDialog.SetUri | app/src/main/java/com/cuddlesoft/nori/fragment/EditAPISettingDialogFragment.java:106-107 | setting the URI text changes only the URI and the credential fields, since the watcher runs on every change |
| EditApiSettingDialog.TextChangedSettles | app/src/main/java/com/cuddlesoft/nori/fragment/EditAPISettingDialogFragment.java:196-208 | the watcher keeps the two credential fields in step and a second run changes nothing; afterwards the fields are visible exactly for a Danbooru URI |
| EditApiSettingDialog.OnFocusChange | app/src/main/java/com/cuddlesoft/nori/fragment/EditAPISettingDialogFragment.java:216-222 | focusing an empty URI field fills in http:// and nothing else changes otherwise |
| EditApiSettingDialog.FocusIdempotent | app/src/main/java/com/cuddlesoft/nori/fragment/EditAPISettingDialogFragment.java:216-222 | focusing twice has the effect of focusing once |
| EditApiSettingDialog.ArgumentRowId | app/src/main/java/com/cuddlesoft/nori/fragment/EditAPISettingDialogFragment.java:87-89 | the row id comes from the arguments when they carry one, and is -1 otherwise |
| EditApiSettingDialog.Create | app/src/main/java/com/cuddlesoft/nori/fragment/EditAPISettingDialogFragment.java:85-121 | the dialog takes the argument row id; on a first creation with settings the four fields show them (a null field shows empty), and otherwise the fields stay as they were |
| EditApiSettingDialog.TitleOf | app/src/main/java/com/cuddlesoft/nori/fragment/EditAPISettingDialogFragment.java:129 | the title is "add service" exactly for row id -1 |
| EditApiSettingDialog.OnClick | app/src/main/java/com/cuddlesoft/nori/fragment/EditAPISettingDialogFragment.java:169-188 | a form without name or URI, or with only one credential, calls nobody and stays open; otherwise a negative row id adds and any other id edits that row, with the four texts, and the dialog is dismissed; a detached dialog throws |
| EditApiSettingDialog.TitleMatchesCall | app/src/main/java/com/cuddlesoft/nori/fragment/EditAPISettingDialogFragment.java:85-188 | a dialog titled "add" adds when accepted and one titled "edit" edits, whatever its arguments |
| EditApiSettingDialog.EditUnchangedResends | app/src/main/java/com/cuddlesoft/nori/fragment/EditAPISettingDialogFragment.java:111-188 | opening a stored service and pressing OK unchanged sends back exactly its id, name, endpoint and credentials, even for a URI that hides the credential fields |
| EditApiSettingDialog.LastMatch | app/src/main/java/com/cuddlesoft/nori/fragment/EditAPISettingDialogFragment.java:160-164 | the last suggestion index holding the picked name, and -1 when none does |
| EditApiSettingDialog.LastMatchIs | app/src/main/java/com/cuddlesoft/nori/fragment/EditAPISettingDialogFragment.java:160-164 | an index that matches, with no match after it, is the last match |
| EditApiSettingDialog.OnItemClick | app/src/main/java/com/cuddlesoft/nori/fragment/EditAPISettingDialogFragment.java:153-165 | picking a suggested name sets the URI to the suggestion URI of the last matching name, with the credential fields updated for it; no match changes nothing; a match past the URI array throws |
| SearchSuggestionDatabase.Names | app/src/main/java/com/cuddlesoft/nori/database/SearchSuggestionDatabase.java:28-29 | the name column, one entry per row in row order |
| SearchSuggestionDatabase.InsertRow | app/src/main/java/com/cuddlesoft/nori/database/SearchSuggestionDatabase.java:96-97 | a name already in the table is ignored, keeping its row and icon, and the insert reports -1; any other name becomes a new last row under the next id |
| SearchSuggestionDatabase.InsertRowKeepsValid | app/src/main/java/com/cuddlesoft/nori/database/SearchSuggestionDatabase.java:96-97 | inserting keeps ids ascending and below the next id and names unique, and adds the name to the name list exactly when it was absent |
| SearchSuggestionDatabase.Insert | app/src/main/java/com/cuddlesoft/nori/database/SearchSuggestionDatabase.java:52-73 | a tag shorter than three UTF-16 code units is not stored and gives -1; a longer new tag becomes a search-history row under the next id; a known tag gives -1 and changes nothing |
| SearchSuggestionDatabase.InsertExistingKeepsIcon | app/src/main/java/com/cuddlesoft/nori/database/SearchSuggestionDatabase.java:52-73 | searching again for a stored tag, remembered or built in, changes nothing |
| SearchSuggestionDatabase.HistoryCount | app/src/main/java/com/cuddlesoft/nori/database/SearchSuggestionDatabase.java:85 | the number of search-history rows is at most the number of rows |
| SearchSuggestionDatabase.KeepBuiltIn | app/src/main/java/com/cuddlesoft/nori/database/SearchSuggestionDatabase.java:85 | deleting the history keeps exactly the built-in rows, in order, with the removed count making up the difference |
| SearchSuggestionDatabase.KeepBuiltInOrdered | app/src/main/java/com/cuddlesoft/nori/database/SearchSuggestionDatabase.java:85 | deleting rows never reorders the table or brings two rows with one name: ascending ids and unique names survive the deletion |
| SearchSuggestionDatabase.EraseSearchHistory | app/src/main/java/com/cuddlesoft/nori/database/SearchSuggestionDatabase.java:80-90 | every search-history row goes, every built-in row stays, and the count returned is the number of rows removed |
| SearchSuggestionDatabase.EraseKeepsValid | app/src/main/java/com/cuddlesoft/nori/database/SearchSuggestionDatabase.java:80-90 | erasing keeps the table valid, and erasing twice removes nothing more |
| SearchSuggestionDatabase.NoHistoryKeptWhole | app/src/main/java/com/cuddlesoft/nori/database/SearchSuggestionDatabase.java:85 | a table without history rows is left whole and reports 0 removed |
| SearchSuggestionDatabase.Seeded | app/src/main/java/com/cuddlesoft/nori/database/SearchSuggestionDatabase.java:94-117 | the first table is valid, holds only built-in rows, and holds a name exactly when it is a line of the tag asset |
| SearchSuggestionDatabase.SeededDistinct | app/src/main/java/com/cuddlesoft/nori/database/SearchSuggestionDatabase.java:106-110 | a tag asset without repeated lines gives one row per line, in file order, with ids from 1 |
| SearchSuggestionProvider.MatchUri | app/src/main/java/com/cuddlesoft/nori/database/SearchSuggestionProvider.java:118-125 | a URI matches suggest-query or shortcut-refresh exactly when it has the provider's authority and that path, alone or with one more non-empty segment |
| SearchSuggestionProvider.PercentMatchesAll | app/src/main/java/com/cuddlesoft/nori/database/SearchSuggestionProvider.java:64 | the pattern made of a lone % matches every name |
| SearchSuggestionProvider.PrefixMatches | app/src/main/java/com/cuddlesoft/nori/database/SearchSuggestionProvider.java:64 | every name that starts with the typed prefix, ignoring ASCII case, matches the prefix followed by %, whatever the prefix holds |
| SearchSuggestionProvider.PlainPrefixMatchesOnly | app/src/main/java/com/cuddlesoft/nori/database/SearchSuggestionProvider.java:64 | for a prefix without % or _, matching the prefix followed by % means starting with the prefix, ignoring ASCII case |
| SearchSuggestionProvider.UnderscoreIsWildcard | app/src/main/java/com/cuddlesoft/nori/database/SearchSuggestionProvider.java:64 | a typed _ acts as a wildcard: "a_c" suggests "abcd", which does not start with it |
| SearchSuggestionProvider.Suggestions | app/src/main/java/com/cuddlesoft/nori/database/SearchSuggestionProvider.java:58-66 | the suggestions are exactly the rows for a null query, and otherwise exactly the rows whose name is LIKE the query followed by % |
| SearchSuggestionProvider.SuggestionsOfNone | app/src/main/java/com/cuddlesoft/nori/database/SearchSuggestionProvider.java:61-62 | a null query returns the whole table, in order |
| SearchSuggestionProvider.Query | app/src/main/java/com/cuddlesoft/nori/database/SearchSuggestionProvider.java:69-85 | a suggest URI with a typed segment returns exactly the rows whose name is LIKE that segment lower-cased followed by %; a bare suggest URI returns every row; a shortcut refresh returns null; an unknown URI throws IllegalArgumentException |
| SearchSuggestionProvider.QueryFindsPrefix | app/src/main/java/com/cuddlesoft/nori/database/SearchSuggestionProvider.java:69-77 | typing a prefix lists every stored tag that starts with it, whatever the case of its ASCII letters, and without wildcards lists only those |
| SearchSuggestionProvider.GetType | app/src/main/java/com/cuddlesoft/nori/database/SearchSuggestionProvider.java:88-98 | the suggest URI has the suggest MIME type, the shortcut URI the shortcut MIME type, and any other URI throws |
| SearchSuggestionProvider.Mutate | app/src/main/java/com/cuddlesoft/nori/database/SearchSuggestionProvider.java:101-116 | the provider refuses insert, delete and update, whatever the table and arguments |
| FilterPreference.Parse | app/src/main/java/com/cuddlesoft/nori/TagFilterSettingsActivity.java:90-95 | a blank stored value reads as no words, and no word read back contains a space |
| FilterPreference.Persist | app/src/main/java/com/cuddlesoft/nori/TagFilterSettingsActivity.java:146-150 | the stored value starts and ends with no character trim() would remove |
| FilterPreference.PersistThenParse | app/src/main/java/com/cuddlesoft/nori/TagFilterSettingsActivity.java:90-150 | a list of clean words (non-empty, no space, nothing trim() cuts off) persisted and read back is the same list |
| FilterPreference.ParseThenPersist | app/src/main/java/com/cuddlesoft/nori/TagFilterSettingsActivity.java:90-150 | reading a stored value and persisting the words again only trims the value |
| AddTagFilterDialog.OnClickAsWritten | app/src/main/java/com/cuddlesoft/nori/fragment/AddTagFilterDialogFragment.java:105-114 | with a listener and a text field, a text that trims to one or more non-whitespace characters is handed on untrimmed and closes the dialog; anything else does nothing |
| AddTagFilterDialog.OnClick | app/src/main/java/com/cuddlesoft/nori/fragment/AddTagFilterDialogFragment.java:105-114 | corrected: the same texts are accepted, and the tag handed on is the trimmed text that was checked |
| AddTagFilterDialog.AcceptedIsClean | app/src/main/java/com/cuddlesoft/nori/fragment/AddTagFilterDialogFragment.java:26 | every tag the corrected dialog hands on survives the filter preference's round trip |
| AddTagFilterDialog.Save | app/src/main/java/com/cuddlesoft/nori/fragment/AddTagFilterDialogFragment.java:57-63 | the typed text is saved exactly when there is some |
| AddTagFilterDialog.Restore | app/src/main/java/com/cuddlesoft/nori/fragment/AddTagFilterDialogFragment.java:73-76 | a saved text is restored verbatim, and without one the field keeps its text |
| AddTagFilterDialog.SaveRestore | app/src/main/java/com/cuddlesoft/nori/fragment/AddTagFilterDialogFragment.java:57-76 | a rotation keeps whatever was typed |
| TagFilterSettings.Open | app/src/main/java/com/cuddlesoft/nori/TagFilterSettingsActivity.java:81-95 | no preference opens an empty list; a stored value opens as its trimmed text split on spaces |
| TagFilterSettings.AddTag | app/src/main/java/com/cuddlesoft/nori/TagFilterSettingsActivity.java:155-159 | a new tag goes at the end, duplicates allowed, and the preference then holds the list |
| TagFilterSettings.Remove | app/src/main/java/com/cuddlesoft/nori/TagFilterSettingsActivity.java:137-143 | the remove button removes the tag at its position, the others keep their order, and the preference then holds the list; a bad position throws |
| TagFilterSettings.Count | app/src/main/java/com/cuddlesoft/nori/TagFilterSettingsActivity.java:46-59 | the list shows one row per filtered tag |
| TagFilterSettings.ReopenAfterChange | app/src/main/java/com/cuddlesoft/nori/TagFilterSettingsActivity.java:81-152 | a list of clean tags, once saved, reopens exactly as it was left |
| TagFilterSettings.OpenThenPersist | app/src/main/java/com/cuddlesoft/nori/TagFilterSettingsActivity.java:90-152 | opening a stored list and persisting it unchanged only trims the stored value |
| TagFilterSettings.UntrimmedTagReopensWithEmpty | app/src/main/java/com/cuddlesoft/nori/fragment/AddTagFilterDialogFragment.java:108-110 | as written, adding " b" through the dialog between "a" and "c" stores "a  b c", which reopens with an extra empty tag |
| TagFilterSettings.DialogTagsReopen | app/src/main/java/com/cuddlesoft/nori/fragment/AddTagFilterDialogFragment.java:108-110 | corrected, any tag the dialog accepts leaves a list of clean tags reopening exactly as it was left |
| NsfwFilterSettings.Open | app/src/main/java/com/cuddlesoft/nori/NSFWFilterSettingsActivity.java:62-71 | a stored value opens as its trimmed text split on spaces, and no preference opens the default values |
| NsfwFilterSettings.FirstIndex | app/src/main/java/com/cuddlesoft/nori/NSFWFilterSettingsActivity.java:103 | the first position holding the value, or -1 exactly when the value is absent |
| NsfwFilterSettings.RemoveFirst | app/src/main/java/com/cuddlesoft/nori/NSFWFilterSettingsActivity.java:103 | removing a value takes out its first occurrence and keeps every other entry in order, and changes nothing when it is absent |
| NsfwFilterSettings.RemovedMembership | app/src/main/java/com/cuddlesoft/nori/NSFWFilterSettingsActivity.java:103 | removing a value from a list without repeats takes out that value and no other, and leaves no repeats |
| NsfwFilterSettings.OnCheckedChanged | app/src/main/java/com/cuddlesoft/nori/NSFWFilterSettingsActivity.java:99-111 | checking an absent value appends it, unchecking leaves every other value, and the preference always holds the resulting list |
| NsfwFilterSettings.CheckedChangeMembership | app/src/main/java/com/cuddlesoft/nori/NSFWFilterSettingsActivity.java:99-111 | after a change the value is filtered exactly when it was checked, no other value comes or goes, and no value repeats |
| NsfwFilterSettings.CheckThenUncheck | app/src/main/java/com/cuddlesoft/nori/NSFWFilterSettingsActivity.java:99-111 | checking a value that was not filtered and unchecking it again restores the list |
| NsfwFilterSettings.Checked | app/src/main/java/com/cuddlesoft/nori/NSFWFilterSettingsActivity.java:141 | a checkbox shows checked exactly when its value is filtered, and a position beyond the values throws |
| NsfwFilterSettings.Count | app/src/main/java/com/cuddlesoft/nori/NSFWFilterSettingsActivity.java:115-117 | the list shows one row per rating label |
| NsfwFilterSettings.ToggleShows | app/src/main/java/com/cuddlesoft/nori/NSFWFilterSettingsActivity.java:99-141 | toggling a checkbox and drawing it again shows the state it was toggled to |
| NsfwFilterSettings.ReopenAfterChange | app/src/main/java/com/cuddlesoft/nori/NSFWFilterSettingsActivity.java:62-111 | a list of clean values, once changed, opens again as it was left |
| NetworkUtils.IsConnectionFast | src/main/java/com/cuddlesoft/nori/utils/NetworkUtils.java:74-98 | Wi-Fi and WiMAX are always fast, a mobile connection is fast unless its subtype is one of the nine slow ones, and any other type is slow |
| NetworkUtils.IsActiveNetworkMetered | src/main/java/com/cuddlesoft/nori/utils/NetworkUtils.java:62-65 | a network counts as metered only from Jelly Bean on, and then exactly when the platform says so |
| NetworkUtils.ShouldFetchImageSamples | src/main/java/com/cuddlesoft/nori/utils/NetworkUtils.java:29-54 | samples are fetched exactly on a high-density screen, on an unmetered network, over a fast connection; with no active network at that point it throws |
| NetworkUtils.NewerMobileSubtypesAreFast | src/main/java/com/cuddlesoft/nori/utils/NetworkUtils.java:79-93 | every mobile subtype numbered after eHRPD counts as fast |
| NetworkUtils.OldPlatformIgnoresMetering | src/main/java/com/cuddlesoft/nori/utils/NetworkUtils.java:62-65 | before Jelly Bean the decision does not depend on what the platform says about metering |
| NetworkUtils.LowDensityNeverSamples | src/main/java/com/cuddlesoft/nori/utils/NetworkUtils.java:33-36 | a low-density screen never fetches samples and never looks at the network |
| ServiceDropdownAdapter.GetItemId | src/pe/moe/nori/adapters/ServiceDropdownAdapter.java:20-22 | the item id is the id of the settings at that position, and a position outside the list throws |
| ServiceDropdownAdapter.GetPositionByItemId | src/pe/moe/nori/adapters/ServiceDropdownAdapter.java:24-33 | the first position holding the id, whose item id is then that id; with no match the first position, or -1 for an empty list |
| NumberPickerPreference.OnGetDefaultValue | src/pe/moe/nori/preferences/NumberPickerPreference.java:54-57 | the default is the integer attribute, or 1 when the attribute is absent |
| NumberPickerPreference.ResolveDefault | src/pe/moe/nori/preferences/NumberPickerPreference.java:43-44 | an Integer default is used as is, another kind of number fails the cast, text is parsed as a decimal, and null gives 1 |
| NumberPickerPreference.OnSetInitialValue | src/pe/moe/nori/preferences/NumberPickerPreference.java:40-48 | a default that cannot be resolved fails in every case; restoring opens at the persisted value or else the default; otherwise a text default fails the cast, and nothing is persisted or announced |
| NumberPickerPreference.OnBindDialogView | src/pe/moe/nori/preferences/NumberPickerPreference.java:20-28 | the picker spans 1 to 15 and starts at the initial value when there is one |
| NumberPickerPreference.OnClick | src/pe/moe/nori/preferences/NumberPickerPreference.java:30-38 | the positive button persists, remembers and announces the picked value; any other button changes nothing |
| NumberPickerPreference.GetValue | src/pe/moe/nori/preferences/NumberPickerPreference.java:50-52 | the value is the persisted one, or -1 when none was ever persisted |
| NumberPickerPreference.AcceptedValueSticks | src/pe/moe/nori/preferences/NumberPickerPreference.java:30-52 | a value accepted with the positive button is what getValue reports and what the next restore opens with |
| NumberPickerPreference.FreshOpensAtFallback | src/pe/moe/nori/preferences/NumberPickerPreference.java:40-57 | a preference declared without a default opens a fresh picker at 1 |
| SearchCallbacks.Issue | src/main/java/com/cuddlesoft/nori/SearchActivity.java:113-114 | a new search creates one more uncancelled callback, makes it the pending one and sends one request carrying it; every earlier callback and request is kept |
| SearchCallbacks.Cancel | src/main/java/com/cuddlesoft/nori/SearchActivity.java:267-270 | cancelling a callback sets its flag and changes nothing else |
| SearchCallbacks.FetchMoreImages | src/main/java/com/cuddlesoft/nori/SearchActivity.java:183-194 | a request for more is ignored while a callback is pending; otherwise it asks for the same tags at the page after the result's current offset, the offset plus one as a long, with a callback extending that result |
| SearchCallbacks.NextPageNumber | src/main/java/com/cuddlesoft/nori/SearchActivity.java:193 | the page asked for is the result's offset plus one, summed as a long: even the largest int offset asks for page 2^31, never a wrapped one |
| SearchCallbacks.OnFailure | src/main/java/com/cuddlesoft/nori/SearchActivity.java:232-243 | a failure reaching a cancelled callback does nothing, and any other clears the pending callback |
| SearchCallbacks.Extend | src/main/java/com/cuddlesoft/nori/SearchActivity.java:251-259 | the corrected extension, on a growable list: an empty page ends the paging and keeps the images; any other page is appended with its offset and the paging flag kept; query and count never change |
| SearchCallbacks.ExtendAsWritten | src/main/java/com/cuddlesoft/nori/SearchActivity.java:251-259 | as written, extending throws UnsupportedOperationException exactly when a non-empty page meets the fixed-size list; otherwise it gives what the corrected extension gives |
| SearchCallbacks.ExtendKeepsLastPage | src/main/java/com/cuddlesoft/nori/SearchActivity.java:251-259 | once paging has ended, extending never brings it back |
| SearchCallbacks.ExtendOnlyAppends | src/main/java/com/cuddlesoft/nori/SearchActivity.java:251-259 | a sequence of pages only ever adds images at the end; as written, the extensions succeed on a growable (parcelled) list and agree with the corrected ones, and on the fixed-size list the client builds they succeed exactly when every page comes back empty |
| MainSearchActivity.DoSearch | src/main/java/com/cuddlesoft/nori/SearchActivity.java:102-115 | a new search cancels the pending callback and only it, clears the grid, and sends one request with a fresh callback that becomes the pending one |
| MainSearchActivity.OnCreate | src/main/java/com/cuddlesoft/nori/SearchActivity.java:117-132 | on a first launch one search is sent, for the client's default query, and it becomes the pending one; with saved state nothing is searched; the default query is taken to be the api client's "rating:safe" |
| MainSearchActivity.OnSuccess | src/main/java/com/cuddlesoft/nori/SearchActivity.java:245-265 | as written, for a result on a fixed-size list like the one the api SearchResult's array constructor builds: onSuccess throws UnsupportedOperationException exactly when an uncancelled, extending callback gets a non-empty page; whenever it returns, it does what the corrected handler does |
| MainSearchActivity.OnSuccessCorrected | src/main/java/com/cuddlesoft/nori/SearchActivity.java:245-265 | corrected: a cancelled callback changes nothing; any other clears the pending callback and shows the page, or extends the result it was made for, leaving callbacks and requests alone |
| MainSearchActivity.GrowableResultExtends | src/main/java/com/cuddlesoft/nori/api/SearchResult.java:72-76 | on a result read back from a parcel, whose list is growable, the handler as written is the corrected one |
| MainSearchActivity.SecondPageThrows | src/main/java/com/cuddlesoft/nori/SearchActivity.java:184-259 | with the first page on a fixed-size list like the api SearchResult's: the page is shown, scrolling asks for the next one, and a non-empty next page then throws UnsupportedOperationException |
| MainSearchActivity.ReplacedSearchIsIgnored | src/main/java/com/cuddlesoft/nori/SearchActivity.java:102-115 | after a new search, the success or failure of the search it replaced changes nothing |
| MainSearchActivity.FirstPageNeverEndsPaging | src/main/java/com/cuddlesoft/nori/SearchActivity.java:260-263 | a first page is shown exactly as it came, even when empty |
| MainSearchActivity.NoFetchWhileSearching | src/main/java/com/cuddlesoft/nori/SearchActivity.java:183-188 | scrolling while a search is running asks for nothing, whatever the result shown |
| AppSearchActivity.DoSearch | app/src/main/java/com/cuddlesoft/nori/SearchActivity.java:157-163 | a search needs a client and sends one request whose fresh callback becomes the pending one, without cancelling the one it replaces or clearing the grid |
| AppSearchActivity.OnSearchApiSelected | app/src/main/java/com/cuddlesoft/nori/SearchActivity.java:170-193 | a null service does nothing; otherwise the service is remembered, and only when there is neither a client nor a result is a client made and its default query searched |
| AppSearchActivity.OnCreate | app/src/main/java/com/cuddlesoft/nori/SearchActivity.java:212-217 | a search intent, while nothing is shown, makes the client it carries and searches its query; any other intent does nothing; an intent without action, or a search intent without settings, throws |
| AppSearchActivity.SearchIntentKeepsClient | app/src/main/java/com/cuddlesoft/nori/SearchActivity.java:189-217 | a search started by an intent keeps its client: picking a service later remembers it but neither replaces the client nor searches again |
| AppSearchActivity.OnSuccess | app/src/main/java/com/cuddlesoft/nori/SearchActivity.java:326-364 | a cancelled callback does nothing; otherwise the page is filtered, and its size before filtering decides whether an extending callback ends paging or appends the kept images, and whether a new result starts on its last page |
| AppSearchActivity.OnDestroy | app/src/main/java/com/cuddlesoft/nori/SearchActivity.java:224-231 | leaving the activity cancels the pending callback and changes nothing else |
| AppSearchActivity.FilteredOutPageKeepsPaging | app/src/main/java/com/cuddlesoft/nori/SearchActivity.java:333-355 | a page whose every image is filtered out does not end the paging: the result keeps its images and next page and takes the page's offset |
| AppSearchActivity.KeepNone | app/src/main/java/com/cuddlesoft/nori/SearchActivity.java:336-344 | filtering with a test no image passes keeps nothing |
| AppSearchActivity.ReplacedCallbackStillAnswers | app/src/main/java/com/cuddlesoft/nori/SearchActivity.java:157-163 | a replaced callback is not cancelled: its answer clears the pending callback although the new search has not been answered |
| AppSearchActivity.Count | app/src/main/java/com/cuddlesoft/nori/SearchActivity.java:391-397 | the service picker has no rows before the settings are loaded, and one per setting after |
| AppSearchActivity.GetPositionByItemId | app/src/main/java/com/cuddlesoft/nori/SearchActivity.java:416-423 | the first position holding the row id; with no match position 0, even for an empty list |
| PeSearchActivity.Count | src/pe/moe/nori/SearchActivity.java:157-159 | the grid has no items without a result, and one per image of the result shown |
| PeSearchActivity.CancelPending | src/pe/moe/nori/SearchActivity.java:196-211 | cancelling marks the pending request and only it, and changes nothing else |
| PeSearchActivity.DoSearchAsWritten | src/pe/moe/nori/SearchActivity.java:196-211 | as written, a search with a client cancels the pending request and clears the result, then remembers one new request as pending while queueing a second, separate one |
| PeSearchActivity.DoSearch | src/pe/moe/nori/SearchActivity.java:196-211 | corrected, the request remembered as pending is the one queued; without a client nothing happens |
| PeSearchActivity.OnScroll | src/pe/moe/nori/SearchActivity.java:344-355 | the next page of the shown query is queued and made pending exactly near the end of the grid, with nothing pending, a client, and a result with more pages; otherwise nothing changes |
| PeSearchActivity.Deliver | src/pe/moe/nori/SearchActivity.java:125-140 | only a queued, uncancelled request answers; it clears the pending request and shows the filtered response, or extends the shown result; a null response to a new search throws NullPointerException, and extending fails exactly when extend does |
| PeSearchActivity.NullResponseToNewSearchThrows | src/pe/moe/nori/SearchActivity.java:125-134 | a null response, which the Danbooru parser gives for an empty body, to a new search throws NullPointerException |
| PeSearchActivity.OnErrorResponse | src/pe/moe/nori/SearchActivity.java:143-153 | an error leaves the pending request, the requests and the result as they were |
| PeSearchActivity.ErrorStopsPaging | src/pe/moe/nori/SearchActivity.java:143-153 | after an error the pending request stays set, so scrolling fetches nothing more |
| PeSearchActivity.StaleResponseShownAsWritten | src/pe/moe/nori/SearchActivity.java:209-210 | as written, after two searches the first search's queued request still answers, and its response is shown for the second search |
| PeSearchActivity.SupersededSearchIgnored | src/pe/moe/nori/SearchActivity.java:196-211 | corrected, once a second search starts the first search's request never answers |
| PeSearchActivity.OnNavigationItemSelected | src/pe/moe/nori/SearchActivity.java:56-74 | picking a service makes its client and remembers its id; the default query is searched only with a client and when nothing is shown or the item changed; a position outside the list throws |
| PeSearchActivity.OnLoadFinished | src/pe/moe/nori/SearchActivity.java:313-329 | an empty list selects nothing; otherwise the selected position holds the remembered id when some item has it, else the first |
| SearchResultGrid.Count | app/src/main/java/com/cuddlesoft/nori/fragment/SearchResultGridFragment.java:43-49 | the grid has no items without a result, and one per image of the result shown |
| SearchResultGrid.GetItem | app/src/main/java/com/cuddlesoft/nori/fragment/SearchResultGridFragment.java:52-55 | the item is the image at that position; with no result, or past the images, it throws |
| SearchResultGrid.GetItemId | app/src/main/java/com/cuddlesoft/nori/fragment/SearchResultGridFragment.java:58-60 | the item id is the id of the image at that position |
| SearchResultGrid.SetSearchResult | app/src/main/java/com/cuddlesoft/nori/fragment/SearchResultGridFragment.java:114-122 | setting a result replaces the one shown, and null empties the grid |
| SearchResultGrid.OnScroll | app/src/main/java/com/cuddlesoft/nori/fragment/SearchResultGridFragment.java:209-216 | the result is handed to the activity for more images exactly when at most ten items past the first visible one are hidden, it may have another page, and an activity is attached |
| SearchResultGrid.OnItemClick | app/src/main/java/com/cuddlesoft/nori/fragment/SearchResultGridFragment.java:197-202 | a click hands the image and its position to an attached activity, throws for a position outside the result, and does nothing when detached |
| SearchResultGrid.OnItemClickImageOnly | src/main/java/com/cuddlesoft/nori/fragment/SearchResultGridFragment.java:163-168 | a click hands the image to an attached activity, throws for a position outside the result, and does nothing when detached |
| SearchResultGrid.ColumnWidth | app/src/main/java/com/cuddlesoft/nori/fragment/SearchResultGridFragment.java:148-166 | "small" and "large" give their own size and any other value gives medium |
| SearchResultGrid.ScrollAsksForNextPage | app/src/main/java/com/cuddlesoft/nori/fragment/SearchResultGridFragment.java:209-216 | scrolling near the end with nothing pending makes the activity ask for the page after the result's offset, of the result's own tags |
| SearchResultGrid.LastPageNeverAsks | app/src/main/java/com/cuddlesoft/nori/fragment/SearchResultGridFragment.java:209-216 | a result on its last page never asks for more, however far the grid scrolls |
| ImageViewer.Restore | app/src/main/java/com/cuddlesoft/nori/ImageViewerActivity.java:63-78 | a saved state is used only when it holds both the index and the result; otherwise the intent, whose index defaults to 0; missing client settings throw; nothing is pending and the action bar shows unless the generation hides it |
| ImageViewer.Save | app/src/main/java/com/cuddlesoft/nori/ImageViewerActivity.java:155-162 | the saved state always holds the index, the result key and the client settings, so a restore always takes it over the intent |
| ImageViewer.SaveThenRestore | app/src/main/java/com/cuddlesoft/nori/ImageViewerActivity.java:63-162 | a rotation brings back the pager's current item and the result shown, whatever the intent says; only the pending fetch and the action bar's state are lost |
| ImageViewer.Ellipsize | app/src/main/java/com/cuddlesoft/nori/ImageViewerActivity.java:131-134 | a text within the limit is kept; a longer one keeps its first code units up to the cut and gains one ellipsis; a cut outside the text throws |
| ImageViewer.Title | app/src/main/java/com/cuddlesoft/nori/ImageViewerActivity.java:127-136 | the title is never longer than the formatted text or than the maximum plus one; a longer text is its first maximum-length code units followed by an ellipsis; a negative maximum with a non-empty text throws |
| ImageViewer.TitleIdempotent | app/src/main/java/com/cuddlesoft/nori/ImageViewerActivity.java:127-136 | a title already set is set again unchanged |
| ImageViewer.PagerCount | app/src/main/java/com/cuddlesoft/nori/ImageViewerActivity.java:214-220 | the pager has no pages without a result, and one per image of the result |
| ImageViewer.PagerItem | app/src/main/java/com/cuddlesoft/nori/ImageViewerActivity.java:208-211 | the page at a position shows the image there, and a null result or a position outside it throws |
| ImageViewer.OnPageSelected | app/src/main/java/com/cuddlesoft/nori/ImageViewerActivity.java:169-178 | the selected position becomes the pager's current item; the title of the image there is set (an out-of-range position throws); a fetch of the next page starts exactly when nothing is pending, another page may exist and at most three images are left, and it shows the action bar |
| ImageViewer.SelectedPageSurvivesRotation | app/src/main/java/com/cuddlesoft/nori/ImageViewerActivity.java:155-178 | after a page is selected, saving and restoring brings back that page as the current item, showing the same image |
| ImageViewer.OnFailure | app/src/main/java/com/cuddlesoft/nori/ImageViewerActivity.java:237-247 | a failure clears the pending fetch and leaves the result and the selection alone |
| ImageViewer.OnSuccess | app/src/main/java/com/cuddlesoft/nori/ImageViewerActivity.java:250-272 | a page without images ends the paging; any other page is filtered by rating and appended with its offset; the pending fetch is cleared |
| ImageViewer.OnSuccessUnfiltered | src/main/java/com/cuddlesoft/nori/ImageViewerActivity.java:219-232 | a page without images ends the paging, and any other page is appended as it came; the pending fetch is cleared |
| ImageViewer.ParcelledResultAppends | src/main/java/com/cuddlesoft/nori/ImageViewerActivity.java:67-229 | the viewer's result comes from a parcel; on a growable list, as the api SearchResult's parcel constructor builds, the source's append succeeds and gives exactly what the model appends |
| ImageViewer.KeepingAllIsUnfiltered | src/main/java/com/cuddlesoft/nori/ImageViewerActivity.java:219-232 | with a filter that keeps every image, the third generation appends exactly what the second does |
| ImageViewer.OneFetchAtATime | app/src/main/java/com/cuddlesoft/nori/ImageViewerActivity.java:141-152 | while a page is being fetched, selecting any page asks for nothing more |
| ImageViewer.EmptyPageStopsFetching | app/src/main/java/com/cuddlesoft/nori/ImageViewerActivity.java:256-258 | after a page came back empty, no selection fetches again |
| ImageViewer.FetchKeepsSelectedImage | app/src/main/java/com/cuddlesoft/nori/ImageViewerActivity.java:169-272 | a fetch started by a selection keeps every image already shown at its position, so the selected image stays where it was |
| ImageViewer.OnSingleTap | app/src/main/java/com/cuddlesoft/nori/ImageViewerActivity.java:185-199 | a single tap toggles the action bar and nothing else |
| PeImageViewer.Title | src/pe/moe/nori/ImageViewerActivity.java:233-245 | The title is the id, ": " and each general tag followed by a space; over 25 UTF-16 code units it keeps the first 24 and gains "…", so it never exceeds 25; a null tag array throws |
| PeImageViewer.UnitsAppend | src/pe/moe/nori/ImageViewerActivity.java:233-245 | The UTF-16 code units of joined strings are the code units of each part joined, which lets the title's length be reasoned about piece by piece |
| PeImageViewer.TitleStartsWithId | src/pe/moe/nori/ImageViewerActivity.java:233-245 | When the id and ": " fit before the cut, every title begins with them, truncated or not |
| PeImageViewer.FileName | src/pe/moe/nori/ImageViewerActivity.java:100 | The download is named after whatever follows the file URL's last '/'; a null file URL throws |
| PeImageViewer.PixivUrl | src/pe/moe/nori/ImageViewerActivity.java:185-188 | The Pixiv page opened always starts with the fixed Pixiv prefix and carries something after it |
| PeImageViewer.PixivUrlNamesTheImage | src/pe/moe/nori/ImageViewerActivity.java:185-188 | The Pixiv id of any image within the Java long range reads back unchanged from the page URL |
| PeImageViewer.PagerCount | src/pe/moe/nori/ImageViewerActivity.java:296-298 | The pager has one page per image of the result; a null result throws |
| PeImageViewer.ImageAt | src/pe/moe/nori/ImageViewerActivity.java:208 | The image looked up exists exactly for a non-null result and a position inside it, and is the image at that position |
| PeImageViewer.OnPageSelected | src/pe/moe/nori/ImageViewerActivity.java:207-246 | Selecting an image fails for a bad position, a needed fetch without a client, or a null tag array; otherwise the result and pager are unchanged, the share text is the image's web URL, the title is the image's title, the Pixiv item follows whether it has a Pixiv id once the menu exists, and exactly when nothing is pending, at most three images remain and more pages exist, one request for the next page of the same query is added and becomes pending |
| PeImageViewer.Fresh | src/pe/moe/nori/ImageViewerActivity.java:116-146 | A new viewer has made no request, has none pending, has no menu yet and keeps the action bar hidden |
| PeImageViewer.PagerTarget | src/pe/moe/nori/ImageViewerActivity.java:150 | The pager moves to the requested position when it names a page, and to the nearest page otherwise; with no pages it stays at 0 |
| PeImageViewer.OnCreate | src/pe/moe/nori/ImageViewerActivity.java:148-155 | A restored viewer selects nothing; otherwise position 0 (the default) is selected by a direct call, any other page is selected through the pager's own report, and a null result throws |
| PeImageViewer.EmptyResultFailsToOpen | src/pe/moe/nori/ImageViewerActivity.java:149-155 | Opened on the first image of a result with no images, the viewer throws at once |
| PeImageViewer.FirstImageTitled | src/pe/moe/nori/ImageViewerActivity.java:149-155 | Opened on the first image, the viewer shows that image's title on page 0 |
| PeImageViewer.OpenedImageShown | src/pe/moe/nori/ImageViewerActivity.java:148-155 | Opened on any image of the result, the viewer shows that page with that image's title and web URL as share text |
| PeImageViewer.OnResponse | src/pe/moe/nori/ImageViewerActivity.java:71-81 | A page answered clears the pending request and extends the result by the response, keeping the requests made and the page shown; with a null result it throws |
| PeImageViewer.OnErrorResponse | src/pe/moe/nori/ImageViewerActivity.java:83-88 | A failed page leaves the request pending and the result unchanged |
| PeImageViewer.ErrorStopsFetching | src/pe/moe/nori/ImageViewerActivity.java:83-88 | After a failed page no later selection makes a request: the failed one stays pending for good |
| PeImageViewer.ResponseAllowsNextFetch | src/pe/moe/nori/ImageViewerActivity.java:71-81 | After a response the next selection fetches exactly when it is among the last three images and more pages remain |
| PeImageViewer.OnPageScrollStateChanged | src/pe/moe/nori/ImageViewerActivity.java:249-264 | A touch arms the toggle, a settling swipe disarms it, and going idle flips the action bar exactly when armed; nothing else changes |
| PeImageViewer.TouchToggles | src/pe/moe/nori/ImageViewerActivity.java:249-264 | Touching and letting go without a swipe shows a hidden action bar or hides a shown one |
| PeImageViewer.SwipeKeepsBar | src/pe/moe/nori/ImageViewerActivity.java:249-264 | A swipe (touch, settle, idle) leaves the action bar as it was |
| Downloads.FileName | src/pe/moe/nori/ImageViewerActivity.java:100 | A download is named by the part of the file URL after its last '/': a slash-free suffix of the URL, or the whole URL when it has no '/' (the same expression appears in the second- and third-generation ImageFragment) |
| Downloads.FileNameOfPath | src/main/java/com/cuddlesoft/nori/fragment/ImageFragment.java:163 | A URL made of a directory, "/" and a slash-free name downloads under exactly that name |
| ImageFragments.ShareIntent | app/src/main/java/com/cuddlesoft/nori/fragment/ImageFragment.java:152-158 | What is shared is the image's web page address, as plain text |
| ImageFragments.ChooseUrl | src/main/java/com/cuddlesoft/nori/fragment/ImageFragment.java:89-94 | The sample URL is loaded when samples are wanted and the full-size file URL otherwise |
| ImageFragments.ImageUrl | src/main/java/com/cuddlesoft/nori/fragment/ImageFragment.java:88-94 | The second generation loads the sample exactly when the network heuristic answers yes and the file when it answers no; when the heuristic throws, so does the fragment |
| ImageFragments.LowDensityLoadsFile | src/main/java/com/cuddlesoft/nori/fragment/ImageFragment.java:88-94 | On a screen that is not high-density the full-size file is always loaded, whatever the network |
| ImageFragments.ShouldLoadImageSamples | app/src/main/java/com/cuddlesoft/nori/fragment/ImageFragment.java:140-145 | With the conserve-bandwidth preference on samples are used without asking the network heuristic; with it off the heuristic decides |
| ImageFragments.PreferenceOffMatchesHeuristic | app/src/main/java/com/cuddlesoft/nori/fragment/ImageFragment.java:140-145 | With the preference off, the third generation loads the same URL as the second and fails in the same cases |
| ImageFragments.PixivUrl | app/src/main/java/com/cuddlesoft/nori/fragment/ImageFragment.java:207-211 | For an image offering "View on Pixiv" (a non-null, non-empty Pixiv id), the page opened is the Pixiv prefix followed by the id, strictly longer than the prefix |
| ImageFragments.PixivUrlNamesId | app/src/main/java/com/cuddlesoft/nori/fragment/ImageFragment.java:104-108 | Whenever "View on Pixiv" is offered, the page it opens splits into exactly the prefix and the image's Pixiv id |
| ImageFragments.DownloadImage | app/src/main/java/com/cuddlesoft/nori/fragment/ImageFragment.java:174-186 | The download fetches the file URL and is titled and stored under the same slash-free name, which ends the file URL |
| ImageFragments.CanScroll | src/main/java/com/cuddlesoft/nori/fragment/ImageFragment.java:77-79 | Before the image view exists the page can always scroll; afterwards the view decides |
| ImageFragments.ShowTagListDialog | app/src/main/java/com/cuddlesoft/nori/fragment/ImageFragment.java:163-166 | The tag list is shown for the fragment's image and the listener's client settings exactly while a listener is attached; after detaching it throws |
| ImageFragments.OnAttach | app/src/main/java/com/cuddlesoft/nori/fragment/ImageFragment.java:76-84 | Attaching gives the fragment its listener and keeps its image |
| ImageFragments.OnDetach | app/src/main/java/com/cuddlesoft/nori/fragment/ImageFragment.java:87-90 | Detaching drops the listener and keeps the image |
| ImageFragments.ReattachRestoresTagList | app/src/main/java/com/cuddlesoft/nori/fragment/ImageFragment.java:76-166 | A detached fragment cannot show its tag list, and once attached again shows it for the same image |
| WebViewImageFragment.Escape | app/src/main/java/com/cuddlesoft/nori/fragment/WebViewImageFragment.java:81 | Each of the five characters HTML reserves is written as an entity starting with '&'; every other character stands for itself |
| WebViewImageFragment.HtmlEncode | app/src/main/java/com/cuddlesoft/nori/fragment/WebViewImageFragment.java:81 | The escaped URL is never shorter than the URL and holds no '<', '>', '"' or apostrophe |
| WebViewImageFragment.DecodeEscape | app/src/main/java/com/cuddlesoft/nori/fragment/WebViewImageFragment.java:81 | Decoding an escaped character followed by anything gives that character back first |
| WebViewImageFragment.DecodeEncode | app/src/main/java/com/cuddlesoft/nori/fragment/WebViewImageFragment.java:81 | Decoding the five entities inverts the escaping: every URL reads back unchanged |
| WebViewImageFragment.FormatPlain | app/src/main/java/com/cuddlesoft/nori/fragment/WebViewImageFragment.java:83 | The formatter copies text without '%' unchanged ahead of whatever follows, and fails exactly when what follows fails |
| WebViewImageFragment.FormatPercent | app/src/main/java/com/cuddlesoft/nori/fragment/WebViewImageFragment.java:83 | "%%" formats to a single '%' |
| WebViewImageFragment.FormatArgument | app/src/main/java/com/cuddlesoft/nori/fragment/WebViewImageFragment.java:83 | The first "%s" formats to the argument, whatever it contains, followed by the plain text after it |
| WebViewImageFragment.FormatPlainOk | app/src/main/java/com/cuddlesoft/nori/fragment/WebViewImageFragment.java:83 | Plain text before a template that formats is copied in front of its result |
| WebViewImageFragment.Format | app/src/main/java/com/cuddlesoft/nori/fragment/WebViewImageFragment.java:83 | String.format fails only with an IllegalFormatException, and a template without '%' comes back unchanged |
| WebViewImageFragment.FormatShape | app/src/main/java/com/cuddlesoft/nori/fragment/WebViewImageFragment.java:28-35 | A template of plain text with two "%%" and one "%s" formats without error, each "%%" becoming '%' and the "%s" the argument |
| WebViewImageFragment.FormatImageHtml | app/src/main/java/com/cuddlesoft/nori/fragment/WebViewImageFragment.java:28-35 | Formatting the page template with any URL succeeds and puts the URL between the same fixed text before and after it |
| WebViewImageFragment.Page | app/src/main/java/com/cuddlesoft/nori/fragment/WebViewImageFragment.java:80-84 | The page loaded never fails to format and holds the escaped sample or file URL between the fixed text |
| WebViewImageFragment.SourceAttributeIsTheUrl | app/src/main/java/com/cuddlesoft/nori/fragment/WebViewImageFragment.java:28-84 | In every page the img src value sits between the fixed parts, contains no quote that could end the attribute early, and decodes to exactly the URL chosen |
| WebViewImageFragment.CanScroll | app/src/main/java/com/cuddlesoft/nori/fragment/WebViewImageFragment.java:59-62 | The web view never lets the pager scroll, in any direction |
| Wrappers.LengthOrZero | src/pe/moe/nori/fragments/TagListDialogFragment.java:115-124 | a null list counts as empty; any other has its own length |
| PeTagListDialog.All | src/pe/moe/nori/fragments/TagListDialogFragment.java:93-106 | A null tag group contributes no tags; any other contributes all of its tags |
| PeTagListDialog.TagList | src/pe/moe/nori/fragments/TagListDialogFragment.java:93-106 | The list is empty for a null image and otherwise holds as many entries as the non-null copyright, character, artist and general groups together |
| PeTagListDialog.Count | src/pe/moe/nori/fragments/TagListDialogFragment.java:127-129 | There is one row per listed tag |
| PeTagListDialog.GetItem | src/pe/moe/nori/fragments/TagListDialogFragment.java:132-134 | A row's tag exists exactly for a position inside the list and is the listed tag there; other positions throw |
| PeTagListDialog.GetItemId | src/pe/moe/nori/fragments/TagListDialogFragment.java:137-139 | A row's id is its position |
| PeTagListDialog.ItemColour | src/pe/moe/nori/fragments/TagListDialogFragment.java:115-124 | Colouring a row throws exactly when the image is null |
| PeTagListDialog.ColourMatchesGroup | src/pe/moe/nori/fragments/TagListDialogFragment.java:93-124 | Every row is coloured after the group its tag came from and shows that group's tag: the colour bounds and the list's order agree, null groups included |
| PeTagListDialog.OnItemClick | src/pe/moe/nori/fragments/TagListDialogFragment.java:74-80 | A click inside the list searches for one of the image's listed tags; a click outside it throws |
| PeTagListDialog.Save | src/pe/moe/nori/fragments/TagListDialogFragment.java:38-43 | The saved state holds the image exactly when the dialog has one |
| PeTagListDialog.Restore | src/pe/moe/nori/fragments/TagListDialogFragment.java:46-50 | A saved image replaces the dialog's own; without one the dialog keeps what it was made with |
| PeTagListDialog.RecreatedDialogKeepsTags | src/pe/moe/nori/fragments/TagListDialogFragment.java:38-50 | A dialog recreated with no image after saving shows the same tags as before; with nothing saved it shows none |
| TagListDialog.Count | app/src/main/java/com/cuddlesoft/nori/fragment/TagListDialogFragment.java:102-108 | There is no row for a null image and one row per tag otherwise |
| TagListDialog.GetItem | app/src/main/java/com/cuddlesoft/nori/fragment/TagListDialogFragment.java:110-113 | A row's tag exists exactly for a position inside the tag list and is the image's tag there; a null image or other position throws |
| TagListDialog.GetItemId | app/src/main/java/com/cuddlesoft/nori/fragment/TagListDialogFragment.java:115-119 | A row's id is its position |
| TagListDialog.TagColour | app/src/main/java/com/cuddlesoft/nori/fragment/TagListDialogFragment.java:136-150 | Each tag type has its own colour and every tag gets its type's colour, so a recycled row never keeps a stale colour |
| TagListDialog.GetView | app/src/main/java/com/cuddlesoft/nori/fragment/TagListDialogFragment.java:121-152 | A row shows its tag's name in the colour of the tag's type; outside the list it throws |
| TagListDialog.OnItemClick | app/src/main/java/com/cuddlesoft/nori/fragment/TagListDialogFragment.java:85-96 | A click starts a search for the clicked tag's name with the dialog's client settings; outside the list it throws |
| TagListDialog.ClickSearchesShownName | app/src/main/java/com/cuddlesoft/nori/fragment/TagListDialogFragment.java:85-152 | Clicking a row searches for exactly the name that row shows |

## Left out

- Android plumbing has no behaviour to state and is not modelled: layouts, views, menus, progress indicators, toasts, notifications, dialogs' show and dismiss, `ShareActionProvider`, `WebView` settings, `WallpaperManager` and the `DownloadManager` queue. For downloads, only the request's URL, title and destination are modelled.
- Image loading and caching (Picasso, Volley's `ImageLoader` and the first-generation viewer's `LruCache` bitmap caches, `src/pe/moe/nori/ImageViewerActivity.java:50-57`) is not modelled: it decides nothing the model states.
- Network I/O is not modelled: HTTP requests, time-outs and the Volley queue's threads. Response codes, I/O failures, parsed pull-parser events and client callbacks are inputs, and they arrive one at a time.
- Threads and ordering are sequential: `AsyncTask`, `AsyncTaskLoader`, `IntentService` and broadcast delivery are modelled as calls made one after another.
- SQLite, `ContentResolver`, `UriMatcher` and `LocalBroadcastManager` are abstracted: tables are sequences of rows with an id counter, and notifications are counted.
- Tokenising XML (`XmlPullParser`) is the parser library's work; the events it reports are an input.
- `SimpleDateFormat` date parsing is not modelled: a post's creation date is kept as its text.
- `Uri.parse` is an input: the scheme, host and path segments it reports are parameters.
- The client library `com.cuddlesoft.norilib` (SearchClient, SearchClient.Settings, APIType, its SearchResult, Image and Tag, and the detection service) is not part of this model. The second generation's `SearchActivity`, `ImageViewerActivity`, `ImageFragment` and `SearchResultGridFragment` import it too (`src/main/java/com/cuddlesoft/nori/SearchActivity.java:24-28`). Both those classes and the third generation are modelled against the second generation's own `api` SearchResult, Image and Tag (`src/main/java/com/cuddlesoft/nori/api`).
- The third generation's `util/NetworkUtils.java` is not part of this model either: its answer is a parameter of `ImageFragments.ShouldLoadImageSamples`.
- `src/pe/moe/nori/api/SearchResult.java` lacks the members its users call (query, pageNumber, hasMore, filter, extend). Those members are fields of `PeSearchActivity.Shown` or function parameters, and its parcel round trip cannot be stated because its `Image` is not parcelable.
- The first-generation clients' `commentListRequest` returns null and has no logic; it is not modelled.
- The screen density is a float in Android; it is reduced to a high-density flag.
- Classes with no logic to state are not modelled: `PicassoImageFragment`, both `ImageViewerPager`s, `SquaredNetworkImageView`, `HelpActivity`, both `SettingsActivity`s, `ClearSearchHistoryService`, the `BooruClient` interface, the first generation's `SearchResultFragment` and `TouchImageViewerFragment`.
- The third-generation search activity's `SearchView` state (expanded or collapsed, the query text shown) is not modelled.
- A null tag array in a third-generation Image is not modelled: the Image it is modelled by always has a tag sequence.
- Object identity is reduced to a callback's index: where the source compares or keeps references, the model compares indices.
- `WebViewImageFragment.Format`: `String.format` conversions other than `%%` and `%s` are not modelled and give the same error as a missing argument. The page template uses no others.
- `JavaStrings.ToLowerAscii`: Unicode case mapping is not modelled. `String.toLowerCase` lowers every letter that has a lower-case form, and the model lowers only 'A' to 'Z'. So the source lowers a typed "É" to "é" and the model keeps "É", which changes which suggestion rows match.
- `NumberPickerPreference.OnBindDialogView`: the result is the value the picker is asked to start at. `NumberPicker` itself would clamp a value outside 1 to 15 into the range, and that widget is not part of this model.
- `PeSearchActivity.OnScroll`: the page after `pageNumber` is `pageNumber + 1` without wrap-around, because the type of `pageNumber` is not shown.
- `PeImageViewer.OnPageSelected`: as for `PeSearchActivity.OnScroll`, the next page number is not wrapped.
- `ImageViewer.Title`: the title format and the maximum title length are Android resources, and the model takes them as parameters.
- The Pixiv matcher in `BaseApiClient` follows the one pattern at `src/main/java/com/cuddlesoft/nori/api/clients/BaseAPIClient.java:25`; regular expressions in general are not modelled.
- `SearchCallbacks.Extend`: the third generation's client library is not part of this model, so its SearchResult is taken to have a growable list, and the third-generation search activity and image viewer append through the corrected extension. The second generation's append, which can throw, is `SearchCallbacks.ExtendAsWritten`.
- `ApiSettingsActivity.OnLoadFinished`: `APISettingsDatabase.Loader` exists only as a commented-out stub marked TODO (`app/src/main/java/com/cuddlesoft/nori/database/APISettingsDatabase.java:207-210`). The model assumes the loader delivers every row of the table in ascending id order.
- `Tags.ReadTag`: a null name in the parcel is reported as `NullPointer`. The Java constructor stores the null, but a tag's name here is a string that cannot be null.
- `Tags.ReadTags`: likewise, a null element of a typed array is reported as `NullPointer` instead of being stored.
- `SearchResults.ReadImages`: likewise, a null element of the image list is reported as `NullPointer` instead of being stored.
- `SearchResults.ReadSearchResult`: likewise, a null image list or query array is reported as `NullPointer`, where the parcel constructor stores the null.
- `ApiSettingsDatabase.Update`: the NOT NULL violation is reported as `SqlConstraint`, standing for `SQLiteConstraintException`. SQLite itself is not modelled.
- `LegacyClient.SearchUrlsRead`: the endpoint is read as literal text. The source puts it into `String.format`'s format string, so a '%' in a user-entered endpoint is read as a conversion. That can throw `UnknownFormatConversionException` or consume an argument, and Java's format-string grammar is not modelled.
- `ShimmieClient.PagedUrl`: as for `LegacyClient.SearchUrlsRead`, a '%' in the endpoint is not read as a format conversion.
- `DanbooruClient.SearchUrlsRead`: the source formats the page and limit with `%d` without `Locale.US`, so a default locale with other digits prints them differently. The model always prints ASCII digits, because the device locale is not modelled.
- `UriEncode.EncodeString`: a Dafny `string` cannot hold a lone surrogate. `Uri.encode` would encode one as the UTF-8 of U+FFFD, and that input cannot be represented here.
- `MainSearchActivity.OnSuccess`: the activity's result is norilib's SearchResult, which is not part of this model. The model assumes it keeps a fresh result's images in a fixed-size list, as the `api` SearchResult's array constructor does (`src/main/java/com/cuddlesoft/nori/api/SearchResult.java:61`). Whether the activity's append throws rests on that assumption.
- `MainSearchActivity.SecondPageThrows`: rests on the same assumption about norilib's SearchResult as `MainSearchActivity.OnSuccess`.
- `MainSearchActivity.OnCreate`: the default query comes from norilib's `SearchClient.getDefaultQuery`, which is not shown. The model takes the `api` client's "rating:safe" (`src/main/java/com/cuddlesoft/nori/api/clients/BaseAPIClient.java:56-58`).
- `ImageViewer.ParcelledResultAppends`: assumes that norilib's SearchResult, read back from a parcel, has a growable list, as the `api` class's parcel constructor builds (`src/main/java/com/cuddlesoft/nori/api/SearchResult.java:73`).
- `SearchCallbacks.FetchMoreImages`: the next page is the long offset plus one, handed to norilib's `SearchClient.search`, whose parameter type is not shown. The model neither wraps nor narrows it.
- `SearchCallbacks.NextPageNumber`: states the long sum only; what norilib's client does with a page above the int range is not modelled.
- `JavaStrings.ParseDecimal`: only the ASCII digits 0 to 9 are accepted. Java's `parseLong` and `parseInt` accept any character whose `Character.digit(c, 10)` is not -1, such as Arabic-Indic or fullwidth digits, so "١٢" parses to 12 in the source and is a `NumberFormat` error here. Unicode digit categories are not modelled.
- `JavaStrings.ParseInt32`: accepts only ASCII digits, like `JavaStrings.ParseDecimal`.
- `ServiceSettingsProvider.ReadSettings`: a read past the end of the parcel is reported as `IllegalArgument` by `Parcels.ReadInt`, `Parcels.ReadString` and `Parcels.ReadByte`, where Android's `Parcel` returns 0 or null. This is a modelling choice: the parcels the model reads are the ones it writes (`ServiceSettingsProvider.ParcelRoundTrip`), and those never run out.
- `ResourceTypeDetect.HandleIntent`: which schemes give a non-HTTP connection is the URL library's business; the network oracle reports it per URL.

## Findings

| source | as written | input that shows it | evidently intended | confidence | as-written member | corrected member |
|---|---|---|---|---|---|---|
| src/main/java/com/cuddlesoft/nori/api/SearchResult.java:93-94 | the result of `CollectionUtils.removeAll` is discarded, so query tags stay in the filter list | query ["a"], tag filter ["a"], one image tagged "a": the image is removed | the tags the user searched for are exempt from the tag filter | high, not executed | SearchResults.FilterTagsAsWritten, SearchResults.QueryTagNotExempted | SearchResults.FilterTags, SearchResults.FilterTagsKeeps |
| src/main/java/com/cuddlesoft/nori/api/SearchResult.java:61 | the array constructor keeps images in the fixed-size list `Arrays.asList` returns, so adding a page or filtering out an image throws `UnsupportedOperationException`. The second generation's `SearchActivity` holds norilib's SearchResult instead, which is not shown, so the activity-level consequence (`MainSearchActivity.OnSuccess`, `MainSearchActivity.SecondPageThrows`) holds only if that class keeps the same fixed-size list | a result built from an array, then `addImages` with one image, or a filter that removes one image | a growable list, as the parcel constructor builds | high, not executed | SearchResults.AddImagesAsWritten, SearchResults.SecondPageRejected, SearchResults.KeepAsWritten, SearchResults.FilterOnFreshResultRejected, SearchCallbacks.ExtendAsWritten, MainSearchActivity.OnSuccess, MainSearchActivity.SecondPageThrows | SearchResults.AddImages, SearchResults.AddImagesTwice, SearchCallbacks.Extend, MainSearchActivity.OnSuccessCorrected |
| app/src/main/java/com/cuddlesoft/nori/fragment/AddTagFilterDialogFragment.java:108-110 | the text is validated after `trim()` but passed on untrimmed | filter list ["a"], add " b" through the dialog, then add "c": stored as "a  b c", reopened as ["a", "", "b", "c"] | the trimmed tag is added | high, not executed | AddTagFilterDialog.OnClickAsWritten, TagFilterSettings.UntrimmedTagReopensWithEmpty | AddTagFilterDialog.OnClick, TagFilterSettings.DialogTagsReopen |
| src/pe/moe/nori/SearchActivity.java:209-210 | the pending request and the queued request are two different objects, so cancelling the pending one leaves the queued one live | two searches in a row: the first search's queued request still answers and its result is shown for the second search | the queued request is the pending one | high, not executed | PeSearchActivity.DoSearchAsWritten, PeSearchActivity.StaleResponseShownAsWritten | PeSearchActivity.DoSearch, PeSearchActivity.SupersededSearchIgnored |
| src/pe/moe/nori/services/ResourceTypeDetectService.java:66-78 | a success at the DanbooruLegacy path `/post.xml` matches none of the three path comparisons, so type and subtype keep what the request carried | a new service (dialog type 0, Danbooru 2) whose server answers 200 only at /post.xml: it gets the Danbooru 2 client, bound to danbooru.donmai.us | type DanbooruLegacy with the Danbooru subtype | medium, not executed | ResourceTypeDetect.DetectedAsWritten, ResourceTypeDetect.HandleIntent, ServiceSettingsActivity.LegacyDanbooruMisdetected | ResourceTypeDetect.Detected, ResourceTypeDetect.HandleIntentCorrected, ServiceSettingsActivity.LegacyDanbooruDetected |
