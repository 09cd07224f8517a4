# telegram-bot client core, in Dafny

This project models the core of `Telegram::Bot::Client` from the telegram-bot Ruby gem
(`lib/telegram/bot/client.rb`). The model covers:

- **Body preparation** (`prepare_body` and `extract_files`). Before a Bot API request is posted,
  each top-level field that holds a Hash or an Array is serialised to JSON. First, every `File`
  nested inside it is swapped for the string `"attach://_fileN"`. The file itself is moved into a
  shared `files` hash under the key `_fileN`, and that hash is merged into the top-level body.
  Top-level scalars and top-level files are left as they are.
- **Error classification** (`error_for_response`). A response whose status is 300 or more becomes
  an error. When the body is not usable JSON, it is `Error` with the HTTP reason phrase as its
  message. Otherwise status 403 gives `Forbidden` and 404 gives `NotFound`, each carrying the
  `description` of the JSON body (or `-`), and any other status gives `Error` with the message
  `reason: description`.
- **The client itself.** The model covers:
  - the constructor, with its token and username fallbacks and its base URI;
  - `request`, which posts `base_uri + action` with the prepared body, then either raises the
    classified error or returns the parsed body;
  - `wrap` and `by_id`, which turn a bot id, a client, a Hash of options or a token into a client.

Modules and files:

| file | module | contents |
|---|---|---|
| `wrappers.dfy` | `Wrappers` | `Option` and `Result` |
| `values.dfy` | `Values` | request values (`Value`, `Member`); the files nested in a value, listed in traversal order (`Leaves`) |
| `naming.dfy` | `Naming` | decimal rendering; the `_fileN` argument names and the `attach://` placeholders |
| `extract.dfy` | `Extraction` | `extract_files`, its inverse `Restore`, and the `files` hash |
| `body.dfy` | `Preparation` | `prepare_body`, as a loop and as its specification function, with Hash `[]=` and `merge!` |
| `responses.dfy` | `Responses` | `error_for_response` and the status gate of `request` |
| `client.dfy` | `Clients` | the `Client` class, `wrap` and `by_id` |

How the Ruby is represented:

- A Ruby Hash in the request body is an ordered sequence of `Member`s, or of `Part`s once the
  body is prepared.
  - `Preparation.Store` is `[]=`: it replaces an existing key in place, or appends a new one.
  - `Preparation.Merge` is the `merge!` of line 46.
- The `files` hash is the sequence of extracted files in insertion order. File `k` is stored
  under the key `"_file" + k`.
  - `Extraction.TableIsHash` shows that the Ruby Hash built by the insertions on lines 73-74 holds
    exactly these entries.
  - That proof relies on the decimal rendering being injective (`Naming.NatToStringInjective`).
- `to_json` is kept abstract. A prepared field is either `Raw(value)`, passed through unchanged,
  or `Json(tree)`, which stands for the JSON text of `tree`.
  - `Extraction.Restore` reads such a tree back: each placeholder becomes the file it names in
    the table.
  - `Extraction.RestoreReplace` proves that this recovers the original value.

The files table is shared across the whole body. One `files` hash is created per `prepare_body`
call (line 42), and every field's `extract_files` call adds to it. Numbering therefore continues
from one field to the next; it does not restart for each field. In the model,
field `i` is numbered from the count of files in the fields before it (`BodyLeaves(body[..i])`).

## Model

| member | source | states |
|---|---|---|
| Extraction.Replace | lib/telegram/bot/client.rb:70-81 | a File becomes `attach://_fileN`, with N the number of files taken so far; a nested Hash or Array is recursed into; any other value is unchanged. The table grows by exactly the files inside the value, in traversal order |
| Extraction.ExtractFiles | lib/telegram/bot/client.rb:69-83 | an Array stays an Array of the same length, and a Hash stays a Hash with the same keys in the same order; the table grows by exactly the nested files, in order |
| Extraction.MapItems | lib/telegram/bot/client.rb:82 | `map(&block)` keeps the length; the table grows by the items' files in order |
| Extraction.TransformMembers | lib/telegram/bot/client.rb:82 | `transform_values(&block)` keeps every key in its position; the table grows by the members' files in order |
| Extraction.MapItemsAt | lib/telegram/bot/client.rb:82 | item i of the mapped array is item i replaced against the table as it stood after items 0..i-1 |
| Extraction.TransformMembersAt | lib/telegram/bot/client.rb:82 | member i of the transformed hash keeps its key and has its value replaced against the table after members 0..i-1 |
| Extraction.ExtractFilesAt | lib/telegram/bot/client.rb:69-83 | element i of an extracted Array or Hash, in terms of the table before it |
| Extraction.RestoreReplace | lib/telegram/bot/client.rb:70-81 | for a value none of whose strings equals a generated placeholder `attach://_fileN` (hand-written references such as `attach://photo1` are allowed), resolving the placeholders against any table extending the extracted files gives back the original value (the inverse of extraction) |
| Extraction.HandWrittenReference | lib/telegram/bot/client.rb:44 | a body whose nested value refers by hand to a top-level file (`media: "attach://photo1"` beside the file `photo1`) meets the round trip's precondition |
| Extraction.RestoreUpload | lib/telegram/bot/client.rb:72-75 | the placeholder written for a file resolves back to that file |
| Extraction.RestoreItems | lib/telegram/bot/client.rb:82 | restoring an extracted Array gives back the Array |
| Extraction.RestoreMembers | lib/telegram/bot/client.rb:82 | restoring an extracted Hash gives back the Hash |
| Extraction.EntriesSize | lib/telegram/bot/client.rb:73-74 | the hash built by the insertions has exactly one entry per file: no insertion overwrites an earlier one |
| Extraction.EntriesDomain | lib/telegram/bot/client.rb:73-74 | every key of that hash is a generated name `_filek` for some earlier insertion k |
| Extraction.FreshName | lib/telegram/bot/client.rb:73 | the name `_file#{files.size}` used by the next insertion is not yet a key |
| Extraction.EntriesAt | lib/telegram/bot/client.rb:73-74 | entry `_filek` of the hash holds file k |
| Extraction.TableIsHash | lib/telegram/bot/client.rb:42 | the `files` hash has exactly as many entries as files were inserted, its keys are the generated names, and `_filek` maps to the k-th file inserted (no insertion overwrites another) |
| Naming.NatToString | lib/telegram/bot/client.rb:73 | decimal rendering of `files.size`: non-empty, a single digit exactly for n < 10, and ending in the digit n mod 10 |
| Naming.NatToStringInjective | lib/telegram/bot/client.rb:73 | different numbers render differently |
| Naming.FileName | lib/telegram/bot/client.rb:73 | every argument name starts with `_file` |
| Naming.Placeholder | lib/telegram/bot/client.rb:75 | every placeholder starts with `attach://` |
| Naming.FileNameInjective | lib/telegram/bot/client.rb:73 | equal argument names come from equal counts |
| Naming.FileNamesDiffer | lib/telegram/bot/client.rb:73 | different counts give different argument names |
| Naming.PlaceholderInjective | lib/telegram/bot/client.rb:75 | equal placeholders come from equal counts |
| Values.ItemLeavesAppend | lib/telegram/bot/client.rb:82 | the files of a concatenation of items are the files of each part, in order |
| Values.MemberLeavesAppend | lib/telegram/bot/client.rb:82 | the same for Hash members |
| Preparation.PrepareBody | lib/telegram/bot/client.rb:41-47 | the loop over the fields, with the shared table, computes exactly `PreparedBody`: each container field is turned to JSON against the table so far, and then the table is merged in |
| Preparation.TransformValues | lib/telegram/bot/client.rb:43-45 | `transform_values` keeps the body's keys in order; the table it leaves holds every nested file of the body, field by field |
| Preparation.TransformValuesAt | lib/telegram/bot/client.rb:43-45 | field i of the transformed body keeps its key. A Hash or Array value becomes JSON, numbered from the files of fields 0..i-1. Any other value passes through |
| Preparation.PreparedBodyKeys | lib/telegram/bot/client.rb:41-47 | a key is in the prepared body iff it is a key of the original body or one of the generated `_fileN` names; the keys are exactly the original keys in their order, followed by the generated names the body lacked, in the order `_file0`, `_file1`, ... |
| Preparation.PreparedBodyDistinct | lib/telegram/bot/client.rb:41-47 | a body with unique keys is prepared into a Hash with unique keys |
| Preparation.PreparedBodyFile | lib/telegram/bot/client.rb:46 | for every extracted file j, the prepared body's entry `_filej` holds that file, even when the caller's body already used that key |
| Preparation.PreparedBodyField | lib/telegram/bot/client.rb:43-46 | a field whose key is not a generated name keeps its key, and its value is the prepared form of the original value |
| Preparation.PreparedFieldRestores | lib/telegram/bot/client.rb:44 | a Hash or Array field becomes JSON, and resolving its placeholders against the whole body's table gives back the original field value, provided none of its strings is itself a generated placeholder |
| Preparation.ContainerFieldIsJson | lib/telegram/bot/client.rb:44 | a Hash or Array field is serialised to JSON, and the tree handed to `to_json` contains no File: every nested File was replaced by its placeholder |
| Extraction.ReplacedHasNoFiles | lib/telegram/bot/client.rb:69-83 | after extraction no File is left anywhere in the value, at any depth |
| Preparation.PlainBodyUnchanged | lib/telegram/bot/client.rb:41-47 | a body with no Hash or Array values comes back unchanged, top-level files included |
| Preparation.PlainBodyHasNoLeaves | lib/telegram/bot/client.rb:44 | such a body yields no extracted files |
| Preparation.PreparedBodyFlat | lib/telegram/bot/client.rb:41-47 | no value of the prepared body is a Hash or an Array: every one is a JSON string, a scalar or a file |
| Preparation.MergeFileAt | lib/telegram/bot/client.rb:46 | after `merge!`, `_filej` maps to file j |
| Preparation.MergeOther | lib/telegram/bot/client.rb:46 | `merge!` leaves every key that is not a generated name as it was |
| Preparation.MergeKeys | lib/telegram/bot/client.rb:46 | after `merge!` a key is present iff it was before or is a generated name; the key sequence is the old keys in their positions followed by exactly the generated names not already present, each once, in the order `_file0`, `_file1`, ... |
| Preparation.NewNamesDistinct | lib/telegram/bot/client.rb:73 | the generated names appended by `merge!` are pairwise different |
| Preparation.MergeDistinct | lib/telegram/bot/client.rb:46 | `merge!` into a Hash with unique keys leaves a Hash with unique keys |
| Preparation.StoreGet | lib/telegram/bot/client.rb:46 | after `h[k] = v`, looking up k gives v, and every other key is unchanged |
| Preparation.StoreKeys | lib/telegram/bot/client.rb:46 | `h[k] = v` keeps the existing keys in place and appends k only if it is new |
| Preparation.GetFinds | lib/telegram/bot/client.rb:46 | a lookup in the Hash that `merge!` returns finds a value iff the key is present |
| Responses.FindLast | lib/telegram/bot/client.rb:56 | `result[key]` on a parsed object finds a value iff the key occurs, and the value is that of the key's last occurrence (the entry `JSON.parse` keeps) |
| Responses.Description | lib/telegram/bot/client.rb:56 | the message is the `description` string found by that lookup; `-` whenever the document is not an object or the lookup finds no string |
| Responses.ErrorForResponse | lib/telegram/bot/client.rb:53-63 | if the body is not usable JSON, the result is `Error(reason)`. Otherwise the result is Forbidden iff the status is 403 and NotFound iff it is 404, each carrying the description. Any other status gives an Error whose message is the reason, then `: `, then the description |
| Responses.Outcome | lib/telegram/bot/client.rb:97-98 | an API error is raised iff the status is at least 300, and the error is exactly the classified one; otherwise the parsed document is returned, or the parser error when the body is not JSON |
| Clients.BaseUri | lib/telegram/bot/client.rb:9 | the URL starts with server + `/bot` and ends with `/`, and the token sits between them (nil formats as the empty string) |
| Clients.BaseUriInjective | lib/telegram/bot/client.rb:92 | on one server, different tokens give different base URIs |
| Clients.Client.constructor | lib/telegram/bot/client.rb:88-93 | the positional token and username fall back to the `token` and `username` options; the base URI is built from the `server` option (default `SERVER`) and the resulting token |
| Clients.Client.Request | lib/telegram/bot/client.rb:95-99 | posts `base_uri + action` with the prepared body; the result is `Outcome` of the response, so it fails with an API error iff the status is at least 300 |
| Clients.Wrap | lib/telegram/bot/client.rb:20-27 | wraps each kind of input. A registered id gives its bot. An unknown id fails with `Telegram::Bot::Client :id not configured`. A client is returned as it is. A Hash gives a fresh client built from the Hash merged with the options, the options winning. Any other input is used as the token of a fresh client |

## Left out

- The HTTP transport is left out: `HTTPClient`, `http_request` and `client.post`. `Request` takes
  the POST as a function parameter from URI and body to response.
- `JSON.parse` and `to_json` are left out as text operations. A parsed response is a `Json` tree
  or `Malformed`, and a serialised field is the `Json(tree)` it was produced from.
- `Responses.Description` handles only a `description` that is a JSON string, read from a JSON
  object; every other case gives `-`. In Ruby:
  - a non-string description (a number or `true`) is interpolated by `to_s`, or passed as the
    message object for 403 and 404;
  - a truthy non-object document raises or behaves as `String#[]` when `['description']` is
    applied to it.
- Extraction.RestoreReplace: a caller's own string that already equals a generated placeholder
  `attach://_fileN` cannot be told apart from one written by `extract_files`, so the round trip
  is not claimed for such values.
- `Async`, `DebugClient`, `ApiHelper` (the generated per-method helpers), `TypedResponse`,
  `typed_response!`, `prepare_async_args` and `inspect` are left out. None of them is part of
  this model.
- Symbol and String keys are not distinguished. Option keys are the symbol's name, and
  `symbolize_keys` is the identity. For `merge!` this means a body field with the Symbol key
  `:_file0` is treated as the String key `"_file0"` that line 46 adds: the model replaces it
  (`Preparation.PreparedBodyFile`, `Preparation.MergeKeys`), while Ruby keeps both entries side
  by side. Overwriting a caller's field holds only for String keys.
- A nil option value is not modelled. Options map names to strings, and `token || options[:token]`
  falls back only when the positional token is absent.
- Clients.Wrap: the "not configured" message spells the symbol as `:` + name. Symbols that
  `inspect` quotes (such as `:"my bot"`) are not distinguished. The class name is fixed as
  `Telegram::Bot::Client`, not that of a subclass.
- The bot registry `Telegram.bots` is a read-only map parameter. Its population and any
  concurrent changes to it are left out.
- Files are opaque handles (`File(handle)`). A top-level File is passed through untouched,
  exactly as on line 44, and is left to the transport.
- Clients.Client.constructor: no `HTTPClient` instance is created, because the transport is
  left out.
