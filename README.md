# Sage: bestseller-list extraction and the daily quote broadcast

This project models two parts of the Sage Discord bot.

The first is the bestseller-list client in `src/commands/api_calls/mod.rs`:
- the two extraction walks over decoded responses, `Obj::get_list_names` and
  `ListsType::top_book_details`;
- how `get_genre_lists` and `get_top_books` turn a request outcome, a decoding
  outcome and an extraction outcome into their result or a panic.

The second is one tick of the broadcast task in `src/main.rs`. For every entry
of the cached subscriber list `funny`, the tick:
1. fetches a quote;
2. skips an empty entry;
3. parses the entry as a `u64` channel id;
4. sends `quote\n-_author_` to that channel.

A fetch error is logged and the tick moves on. An entry that is not a `u64`,
or a send that fails, panics and ends the spawned task.

Modules:
- `Wrappers`: `Option`, `Result`, and the `Some(v)` / `None` emptiness check
  both walks end with.
- `Filtering`: a generic in-order filter-and-extract `FilterMap`, and the
  positions it picks (`Picked`). Both walks are instances of it.
- `ApiCalls`: the client (`mod.rs`).
  - Rust panics are the `Panicked` case of `Exec`.
  - A request together with its JSON decoding is an abstract input
    `Fetched = RequestFailed | BodyUnreadable | Body(value)`.
- `Decimal`: Rust's `str::parse::<u64>`. It takes an optional `+` followed by
  one or more ASCII digits, with value below 2^64.
- `Broadcast`: the tick.
  - The imperative loop is `Tick`, and the per-entry body is `HandleEntry`.
  - Both are proved equal to the specification functions `PlanOf` and `Step`.
  - `PlanOf` is a left fold over the entries that stops at the first panic.
    `RunIsClosedPlan` proves it equal to a closed form: the sends of the
    handled entries, one fetch per handled entry, and the first panic.
  - The quote service is the oracle `quoteAt(k)`, the result of the fetch made
    for entry `k`. The chat transport is the oracle `sayOk(k)`, whether the
    send for entry `k` succeeds. The body makes exactly one fetch per entry,
    so the entry index is the call index.

Behaviour of the code worth knowing before reading the model:
- The tick calls `quote_of_the_day("funny")` once for every entry of `funny`,
  empty entries included.
- A bad channel id or a failed send panics (`expect`) and ends the spawned
  task, so no later entry is handled (`TickEnd.TaskPanicked`).
- A failed request in `get_top_books` returns `Err("No books found in that
  genre")`, the same as an empty result. A record that lacks `title`,
  `author` or `description` panics (`unwrap` on `None`).
- `get_genre_lists` never returns `Err`: every failure panics.

## Model

| member | source | states |
|---|---|---|
| Wrappers.NonEmpty | src/commands/api_calls/mod.rs:68-72 | the result is `None` exactly when the collected list is empty, otherwise `Some` of that list |
| Filtering.FilterMapSpec | src/commands/api_calls/mod.rs:62-67 | an in-order collect loop keeps one value per selected element (as many values as picked positions, value by value); positions increase; a position is picked iff the selector accepts its element |
| Filtering.FilterMapEmpty | src/commands/api_calls/mod.rs:62-72 | nothing is collected iff the selector rejects every element |
| Filtering.FilterMapTotal | src/commands/api_calls/mod.rs:42-51 | when every element is accepted, the output has one value per element, position for position |
| ApiCalls.ListNameOf | src/commands/api_calls/mod.rs:64-65 | one entry yields a name iff it holds the key `list_name`, and the name is that key's value |
| ApiCalls.ListNamesOf | src/commands/api_calls/mod.rs:61-73 | `get_list_names` gives `None` iff no entry has the key `list_name`; a `Some` list is never empty |
| ApiCalls.ListNamesExact | src/commands/api_calls/mod.rs:61-73 | the names are exactly the `list_name` values of the entries that hold that key, one per such entry, in entry order; an entry holds the key iff it is picked |
| ApiCalls.GetListNames | src/commands/api_calls/mod.rs:61-73 | the imperative loop with its push and the final length check returns `ListNamesOf` |
| ApiCalls.BookOf | src/commands/api_calls/mod.rs:45-48 | one record yields a book iff it holds `title`, `author` and `description`, and the book's fields are those three values |
| ApiCalls.TopBookDetailsOf | src/commands/api_calls/mod.rs:41-57 | the result of `top_book_details` as a function; it carries no `ensures`, and its properties are `TopBookDetailsShape`, `TopBookDetailsOrder` and `IncompleteRecordPanics` |
| ApiCalls.TopBookDetailsShape | src/commands/api_calls/mod.rs:41-57 | `top_book_details` panics iff some record of some block lacks `title`, `author` or `description`, with the `unwrap`-on-`None` message; it returns `None` iff all blocks together hold no record; a `Some` has exactly one book per record |
| ApiCalls.TopBookDetailsOrder | src/commands/api_calls/mod.rs:43-50 | record `j` of block `i` becomes the book at the position after all records of blocks `0..i-1`, with its three fields (outer then inner order) |
| ApiCalls.IncompleteRecordPanics | src/commands/api_calls/mod.rs:46-48 | a single record lacking a required key makes the whole call panic, with no partial result |
| ApiCalls.AllDetailsIndex | src/commands/api_calls/mod.rs:43-44 | the nested walk visits record `j` of block `i` at position `TotalDetails(results[..i]) + j` |
| ApiCalls.TopBookDetails | src/commands/api_calls/mod.rs:41-57 | the nested imperative loops, which panic at the first incomplete record, return `TopBookDetailsOf` |
| ApiCalls.GetTopBooks | src/commands/api_calls/mod.rs:92-109 | `Err("Error Parsing JSON")` iff the body fails to decode; `Err("No books found in that genre")` iff the request fails or the decoded lists hold no record; no other `Err` text; a panic iff a decoded record is incomplete; `Ok` carries the non-empty extraction with one book per record |
| ApiCalls.GetGenreLists | src/commands/api_calls/mod.rs:76-90 | never `Err`; panics "Cannot reach the API servers" iff the request fails, "Cannot deserialize" iff decoding fails, and with the `unwrap`-on-`None` message iff no entry has `list_name`; otherwise returns the non-empty `ListNamesOf` list |
| Decimal.ParseU64 | src/main.rs:76 | an accepted text starts with `+` or a digit and its value is below 2^64; with `ParseInverse`, `ParseRejectsNonDigit` and `ParseRoundTrip` it is exactly Rust's `u64` parse |
| Decimal.ParseRoundTrip | src/main.rs:76 | every `u64` written in decimal, with or without a leading `+`, parses back to itself |
| Decimal.ParseRejectsOverflow | src/main.rs:76 | a decimal value of 2^64 or more is rejected, with or without `+` |
| Decimal.ParseInverse | src/main.rs:76 | an accepted text is an optional `+` followed by digits only, and those digits without their leading zeros are the shortest decimal text of the parsed value |
| Decimal.ParseRejectsNonDigit | src/main.rs:76 | any character that is not a digit, other than a `+` in first place, makes the parse fail, so the entry panics with "Not a u64 number" |
| Broadcast.Message | src/main.rs:75 | the `format!("{}\n-_{}_", quote, author)` text; it carries no `ensures`, and its properties are `MessageLayout`, `MessageInjective` and `MessageExample` |
| Broadcast.MessageLayout | src/main.rs:75 | the message is the quote, then `\n-_`, then the author, then `_`, and its length is the two lengths plus 4 |
| Broadcast.MessageInjective | src/main.rs:75 | for quotes without a newline, equal messages mean equal quote and equal author |
| Broadcast.MessageExample | src/main.rs:75 | quote `D` by author `A` gives exactly `D\n-_A_` |
| Broadcast.Step | src/main.rs:70-86 | an entry reports a fetch error iff its fetch failed; it is skipped as empty iff the fetch succeeded and the entry is empty; it is delivered iff the fetch succeeded, the entry is non-empty, it parses as a `u64` and the send succeeds, in which case it sends the formatted quote to the parsed id; otherwise it panics with "Not a u64 number" when the parse failed and "Failed to deliver message" when it did not |
| Broadcast.HandleEntry | src/main.rs:70-86 | the imperative body for one entry produces `Step`'s outcome |
| Broadcast.FirstPanic | src/main.rs:76-81 | the first entry whose handling panics: none iff no entry panics, else a panicking entry with no panic before it |
| Broadcast.Handled | src/main.rs:69-87 | the handled entries are a prefix of the entries, and none of them panics |
| Broadcast.SendsAndSkips | src/main.rs:69-87 | among handled entries, each one either sends or is skipped |
| Broadcast.Run | src/main.rs:69-87 | the loop as a fold over the entries, stopping at the first panic; it carries no `ensures`, and its properties are `RunStaysPanicked` and `RunIsClosedPlan` |
| Broadcast.RunStaysPanicked | src/main.rs:76-81 | once the spawned task has panicked, later entries change nothing |
| Broadcast.RunIsClosedPlan | src/main.rs:69-87 | the entry-by-entry run equals the sends of the entries before the first panic, one fetch per entry reached, and that panic as the end |
| Broadcast.PlanOf | src/main.rs:66-88 | with no cached snapshot nothing is fetched or sent; otherwise at most one fetch per entry and exactly one per entry when no panic occurs; a panic at entry `k` means `k + 1` fetches with reason "Not a u64 number" or "Failed to deliver message"; fetches = sends + skips + (1 if panicked) |
| Broadcast.Tick | src/main.rs:66-88 | the imperative loop, which handles entry `k` with the `k`-th fetch and the `k`-th send and returns early on a panic, produces `PlanOf` |
| Broadcast.HandledPlan | src/main.rs:69-87 | the sends are those of the handled entries; a completed tick handles every entry; a panicked tick handles exactly the entries before the panicking one |
| Broadcast.ReachedEntry | src/main.rs:69-87 | an entry the tick reaches sends iff its outcome is a delivery, and ends the tick iff it panics; otherwise the next entry, if any, is reached |
| Broadcast.SentAt | src/main.rs:78-81 | the `j`-th send is the delivery of the `j`-th picked entry, which the tick reached |
| Broadcast.SendOrigin | src/main.rs:73-81 | the `j`-th send comes from an entry the tick reached and delivered to, and carries that entry's parsed id and `quote\n-_author_` |
| Broadcast.SendsInOrder | src/main.rs:69-87 | sends follow entry order, at most one per entry, and an entry the tick reaches sends iff it is delivered to |
| Broadcast.SkipDoesNotStop | src/main.rs:71-85 | an empty entry, or one whose fetch failed, sends nothing and does not end the tick; the next entry is fetched |
| Broadcast.AbortStopsTick | src/main.rs:76-81 | a non-`u64` entry or a failed send at entry `k` ends the tick at `k`, with the matching reason after `k + 1` fetches; the sends are exactly those of the entries before `k` |
| Broadcast.ExampleTick | src/main.rs:66-88 | entries `""`, `"42"`, `"x"` with quote `D` by `A`: one send, `D\n-_A_` to channel 42, three fetches, one skip, then a panic at entry 2 for "Not a u64 number" |

## Left out

- The HTTP requests (`reqwest::get`) and the JSON decoding (`.json::<T>()`) are abstract inputs (`Fetched`). The URLs and the decoding rules are not modelled, including the rule that a missing non-`results` field fails decoding.
- The fields of `Obj`, `BookDetailsType` and `ListsType` that the code never reads (`status`, `copyright`, `num_results`, `rank` and the rest) are not modelled.
- The `env::var("NYT_TOKEN").unwrap()` reads and their panic when the variable is unset, at `src/commands/api_calls/mod.rs:77` and `:93`, are not modelled. Environment variables are outside the model.
- GetGenreLists: each panic message holds only the `expect` text. Rust appends `: <error debug form>` to it.
- Broadcast.PlanOf: each panic reason holds only the `expect` text. Rust appends `: <error debug form>` to it.
- A book is the datatype `Book(title, author, description)` rather than a `(String, String, String)` tuple.
- The bot start-up in `src/main.rs:20-62` and `:93-97` is not modelled: the token check, the application-info queries, the client builder and `client.start()`.
- The MongoDB connection and `get_cached_data` are not modelled. The cached snapshot is the parameter `snapshot`.
- `qod_api::quote_of_the_day` is not part of this model. Its results are the oracle `quoteAt`.
- Serenity's `ChannelId::say` is not modelled. Whether it succeeds is the oracle `sayOk`.
- The model covers one tick. The `tokio::spawn` task, the endless `loop` and the 86400-second `sleep` between ticks are not modelled. After `TaskPanicked` no further tick would run, because the task is gone.
- `await` suspension points and whatever else the runtime does concurrently are not modelled.
- The `println!` logging (the snapshot dump, "Empty Entry", "Sent quote to", the fetch error text) is not modelled. The error text is kept in `FetchFailed(why)`.
- Strings are sequences of characters, while Rust measures `channels.len()` in UTF-8 bytes. The two lengths are zero together, which is the case the code tests.
