# A Dafny model of a React/Supabase social client

The client is a single-page application over a hosted Postgres store. Users
sign in, post images to communities, like and dislike posts, write short
tweets, follow one another (directly from a discover screen, or by
answering follow requests), and chat one to one. This project models the
decision logic of that client. It covers what each screen sends to the
store, what it keeps in its own state afterwards, and how it derives the
lists it renders.

The remote store is an immutable value: a list of rows, a set of pairs or a
map, depending on the table. Every store call is a parameter of the
transition that makes it. For a write this is a boolean "did it succeed".
For a read it is the answer itself (`Fetch`: rows or an error). Ids,
timestamps and public URLs that the store or the clock assigns are
parameters too. Each transition returns the new store, the new screen
state and, where the source reports one, an `Outcome`: a value, or the
failure it threw.

Modules:

- **Common**: shared datatypes.
  - `Option`.
  - `Outcome` and `Failure`: a client-raised error with its message, a JavaScript runtime error, or a store error.
  - `Fetch`.
  - The query-cache keys that mutations invalidate.
- **Text**: ASCII `trim` and `toLowerCase`, `includes`, `split(sep)[0]`, and decimal rendering and parsing.
- **Seqs**: `Array.prototype.filter`, with the facts the screens rely on: order, membership, concatenation, idempotence and sortedness.
- **Session**: the signed-in user and JavaScript's `||` fallbacks on their optional fields.
- **Profiles**: the case-insensitive name search and the exclusion of the signed-in user. Several screens share these.
- **Votes**: the like/dislike button (`LikeButton.tsx`).
  - Casting a vote is related to a reference state machine, `Toggle`, over the abstract view "the vote this (post, user) holds".
- **FollowGraph**, **FollowRequests**, **FollowDiscovery**: the follow graph.
  - FollowGraph holds the two tables `follows` and `follow_requests`.
  - FollowRequests is the follow-requests page.
  - FollowDiscovery is the discover page.
- **Messages**, **ChatBox**, **ChatWidget**: a conversation between two users, the messaging page's chat pane, and the floating chat widget.
- **CreatePost**: the post composer. It uploads the image, then inserts the row.
- **Tweets**: the two tweet composers, the page and the component.
- **ProfileStats**: the statistics on the profile page.
- **NavBar**: profile creation on first sign-in, and the greeting.
- **Messaging**: the messaging page's list and chat view.
- **UserSearch**: the user picker's server-side search.

Two facts about the code shape the model:

- Follows live in two tables, `follows` and `follow_requests`. The discover page inserts a follow directly, with no request.
- The chat pane has no realtime subscription. It refetches after a successful send.

## Model

| member | source | states |
|---|---|---|
| Text.Trim | src/pages/CreateTweet.tsx:59-61 | `trim` returns the middle of the string between blank margins, with no whitespace at either end. It is empty exactly when the string is blank, which is what the `!s.trim()` guards test. |
| Text.Includes | src/components/MessagingPage.tsx:49 | `includes` holds exactly when the needle occurs in the haystack at some offset. |
| Text.BeforeFirst | src/pages/NavBar.tsx:48 | `split('@')[0]` is the prefix before the first '@'. It contains no '@', and it is all of the string when there is none. |
| Text.DecimalString | src/components/CreatePost.tsx:210 | A timestamp is rendered as a non-empty string of digits, which parses back to the same number. |
| Votes.ExistingVote | src/components/LikeButton.tsx:157-164 | `maybeSingle` yields a row only when the lookup succeeds and exactly one row of (post, user) matches. Otherwise the caller sees `null`. |
| Votes.Vote | src/components/LikeButton.tsx:156-187 | With no existing vote, the row (post, user, V) is appended and the call reports `added`. With the same V, that row is deleted and the call reports `removed`. With another value, that row alone takes the new value, every other row keeps its place and contents, and the call reports `changed`. In the `removed` case exactly the rows with the existing row's id are gone. A failed write throws and leaves the table unchanged. |
| Votes.React | src/components/LikeButton.tsx:207-213 | Without a user, the call throws "Please sign in to react to posts" before touching the store. On success, `["votes", post]` is invalidated. |
| Votes.ReactionMessageDistinguishes | src/components/LikeButton.tsx:214-218 | Equal toasts mean the same action, and for `added` or `changed` the same like or dislike. |
| Votes.InsertToggles | src/components/LikeButton.tsx:180-186 | Inserting the first row of a (post, user) gives that pair the inserted vote. Every other pair and the table invariant are unchanged. |
| Votes.DeleteToggles | src/components/LikeButton.tsx:165-171 | Deleting a pair's only row clears its vote. Every other pair and the table invariant are unchanged. |
| Votes.UpdateToggles | src/components/LikeButton.tsx:172-179 | Updating a pair's only row to V gives it the vote V. Every other pair and the table invariant are unchanged. |
| Votes.VoteRefinesToggle | src/components/LikeButton.tsx:156-187 | On a table with at most one row per (post, user), a successful cast toggles that pair's vote as `Toggle` does. Every other pair keeps its vote, and the invariant is preserved. |
| Votes.VoteTwiceRestores | src/components/LikeButton.tsx:156-187 | Voting V twice from "no vote" returns to "no vote", and leaves every other (post, user) as it was. |
| Votes.FailedLookupInsertsAnyway | src/components/LikeButton.tsx:157-186 | A swallowed lookup error reads as "no vote". A caller who already voted then gets a second row, which breaks the one-row-per-pair invariant. |
| Votes.AtMostOneRow | src/components/LikeButton.tsx:157-162 | Under the table invariant, each (post, user) has at most one row. This is the shape `maybeSingle` expects. |
| Votes.TallyVotes | src/components/LikeButton.tsx:252-254 | `likes` counts the rows with vote 1 and `dislikes` the rows with vote -1, so `likes + dislikes <= |votes|`. |
| Votes.FirstVoteBy | src/components/LikeButton.tsx:254 | `userVote` is the vote of the first row by the viewer. It is undefined when there is no viewer or no such row. |
| Votes.ButtonShowsVoteOf | src/components/LikeButton.tsx:189-254 | Over the post's rows, the highlighted vote is that (post, viewer)'s vote in the abstract view. |
| Votes.FirstLikeCounts | src/components/LikeButton.tsx:180-186 | A first like raises the post's like count by one. The dislike count is unchanged, and the viewer's vote becomes 1. |
| FollowRequests.FormatRequest | src/pages/FollowreqPage.tsx:30-33 | `follower_profile` is the first joined profile, or null when the join is missing or empty. |
| FollowRequests.FormatRequests | src/pages/FollowreqPage.tsx:30-33 | `null` data formats to no requests. Otherwise each row is formatted in place. |
| FollowRequests.LoadRequests | src/pages/FollowreqPage.tsx:19-41 | Without a signed-in id nothing happens. Otherwise loading ends. The requests are replaced on success and kept on error. |
| FollowRequests.HandleAction | src/pages/FollowreqPage.tsx:43-68 | Accept inserts (follower, me), and a failed insert stops there. Then the request (follower, me) is deleted. Only when every write succeeded do exactly the follower's rows leave the list, with every other row kept as often as it occurred and in order. `respondingId` is null afterwards in every case. |
| FollowRequests.LoadMirrorsStore | src/pages/FollowreqPage.tsx:19-41 | A signed-in load whose read returns the pending requests to me makes the list show a request from exactly the users with one. A failed read keeps an agreeing list. |
| FollowRequests.ActionKeepsMirror | src/pages/FollowreqPage.tsx:43-68 | Whichever writes succeed, answering a request keeps the list showing a request from exactly the users with a pending request to me. |
| FollowRequests.AcceptApproves | src/pages/FollowreqPage.tsx:46-60 | Accepting a pending request, with both writes succeeding, turns it into a follow. |
| FollowRequests.RejectLeavesNoRelation | src/pages/FollowreqPage.tsx:46-60 | Rejecting never touches `follows`. When the delete succeeds, no relation is left. |
| FollowRequests.AcceptHalfDone | src/pages/FollowreqPage.tsx:47-64 | When the insert succeeds and the delete fails, the follow exists, the request is still stored, and the list is unchanged. |
| FollowRequests.ActionIsLocal | src/pages/FollowreqPage.tsx:43-68 | Answering one request changes no other pair's standing. |
| FollowDiscovery.LoadUsersAndFollows | src/components/FollowUsersPage.tsx:19-43 | The lists are replaced only when both reads succeed, and a `null` answer gives an empty list. Loading ends either way. |
| FollowDiscovery.HandleFollow | src/components/FollowUsersPage.tsx:45-56 | A successful follow stores (me, target) and appends the target to `followingIds`. A failure changes nothing. Requests are never touched. |
| FollowDiscovery.LoadMirrorsFollows | src/components/FollowUsersPage.tsx:19-43 | When the follows read returns the ids I follow, or the load fails over an agreeing list, `followingIds` holds exactly the users I follow. |
| FollowDiscovery.FollowKeepsMirror | src/components/FollowUsersPage.tsx:45-56 | Whether the insert succeeds or not, `followingIds` keeps holding exactly the users I follow in the store. |
| FollowDiscovery.VisibleUsers | src/components/FollowUsersPage.tsx:58-60 | The list is the subsequence of users whose lowercased name contains the lowercased query. An empty query keeps everyone. |
| FollowDiscovery.FollowHidesButton | src/components/FollowUsersPage.tsx:97 | After a successful follow, the target's Follow button is gone. Every other user's button is as before. |
| FollowDiscovery.FollowSkipsRequest | src/components/FollowUsersPage.tsx:46-49 | Following goes from no relation straight to following, with no request. |
| Profiles.SearchByName | src/components/MessagingPage.tsx:48-50 | The name search keeps exactly the matching users, in order. An empty query keeps all of them. |
| Profiles.SearchCounts | src/components/MessagingPage.tsx:48-50 | The name search keeps each matching user exactly as often as the input holds it, and holds no value more often than the input does. |
| Profiles.SearchIgnoresQueryCase | src/components/MessagingPage.tsx:48-50 | Searching for the lowercased query gives the same list as searching for the query. |
| Profiles.SearchIsFilter | src/components/MessagingPage.tsx:48-50 | Searching a concatenation is searching each part. |
| Profiles.ExcludeUser | src/pages/UserList.tsx:38 | Every profile except the signed-in user's, each as often as it occurs, in order. Without a user nothing is removed. |
| Messages.Thread | src/components/chatBox.tsx:42-46 | The thread holds exactly the messages between the two users, in order, and stays ascending in `created_at` when its input is. |
| Messages.ThreadCounts | src/components/chatBox.tsx:42-46 | The thread keeps each message between the two users exactly as often as the input holds it, and holds no value more often than the input does. |
| Messages.ThreadIdempotent | src/components/chatBox.tsx:42-48 | Filtering a thread again changes nothing. |
| Messages.ThreadSymmetric | src/components/chatBox.tsx:42-46 | The thread of (me, other) is the thread of (other, me). |
| Messages.ThreadAppend | src/components/chatBox.tsx:42-46 | A new message joins the end of the thread exactly when it is between the two users. |
| Messages.PrefilterKeepsThread | src/components/chatBox.tsx:31-46 | The server's "sent or received by me" prefilter does not change the thread. |
| ChatBox.FetchMessages | src/components/chatBox.tsx:28-49 | Without a user, without a selected user, or on a read error, the pane is unchanged. Otherwise it shows `Thread` of the read, so the Thread lemmas apply to the pane: exactly the pair's messages, in order. |
| ChatBox.SendMessage | src/components/chatBox.tsx:56-73 | Blank input, or a missing user, sends nothing. The stored content is the trimmed input, from me to the selected user. Success clears the input and refetches. Failure keeps the input. |
| ChatBox.SentMessageAppearsOnce | src/components/chatBox.tsx:56-73 | After a send and a refetch, the thread is the old thread plus the new message at the end, exactly once. |
| ChatBox.SentThreadInOrder | src/components/chatBox.tsx:56-73 | When the table is in creation order, the refetched thread is in creation order too. |
| ChatWidget.WidgetProfiles | src/components/ChatWidget.tsx:14-23 | The widget's profile list excludes the signed-in user and keeps everyone else, in order. |
| ChatWidget.WidgetMessages | src/components/ChatWidget.tsx:25-37 | The thread query is disabled unless both the user and the active user are set. When enabled it returns the pair's thread. |
| ChatWidget.Submit | src/components/ChatWidget.tsx:39-52 | Blank input sends nothing. Without an active user the mutation throws. The stored content is the input as typed. Success clears the input and invalidates the thread's key. |
| ChatWidget.WidgetAgreesWithChatBox | src/components/ChatWidget.tsx:25-37 | The widget shows the same thread as the messaging page's pane. |
| ChatWidget.ComposersDifferOnWhitespace | src/components/ChatWidget.tsx:41-45 | The widget and the pane store the same message exactly when the input has no surrounding whitespace. |
| CreatePost.FilePathsDiffer | src/components/CreatePost.tsx:210 | The same file under the same title, uploaded at different times, gets different paths. |
| CreatePost.Create | src/components/CreatePost.tsx:209-233 | A failed upload throws and writes nothing. After the upload, the row is the input plus the public URL of the same path plus the user. A failed insert throws and leaves the image stored. |
| CreatePost.CreateKeepsImagesStored | src/components/CreatePost.tsx:209-233 | Every post's image URL is the public URL of an uploaded object, whatever the outcome. |
| CreatePost.HandleSubmit | src/components/CreatePost.tsx:266-280 | No mutation without a file or a user id. The avatar is the metadata avatar, or null when it is missing or empty. |
| CreatePost.CommunityChange | src/components/CreatePost.tsx:282-285 | "" selects no community. Any other option selects the number it spells. |
| CreatePost.CommunityOptionRoundTrip | src/components/CreatePost.tsx:282-285 | The option rendered for community n selects n, and the placeholder selects none. |
| CreatePost.Submit | src/components/CreatePost.tsx:250-280 | Success stores the image at its path and appends exactly one row to the earlier posts: the form's title, content and community, the metadata avatar, the image's public URL and the user's id. It also resets every field. Failure keeps the form. A refused submit changes nothing. |
| Tweets.AuthorName | src/pages/CreateTweet.tsx:63 | The author is the metadata name, or "Anonymous" when it is missing or empty. It is never empty. |
| Tweets.PageDraft | src/pages/CreateTweet.tsx:57-65 | Blank content, or no user id, performs no mutation. The content is trimmed. |
| Tweets.ComponentDraft | src/components/CreateTweet.tsx:40-48 | The same guard as the page. The content is passed untrimmed. |
| Tweets.PageInsert | src/pages/CreateTweet.tsx:23-40 | A refused insert throws and stores nothing. A row that is stored but not returned still throws, with "Tweet creation failed" when there is no error. |
| Tweets.ComponentInsert | src/components/CreateTweet.tsx:13-29 | An insert error throws. Otherwise the row is stored. |
| Tweets.PageSubmit | src/pages/CreateTweet.tsx:42-65 | Success clears the content and invalidates `["followed-tweets", user?.id]`. Failure keeps the content. |
| Tweets.ComponentSubmit | src/components/CreateTweet.tsx:31-48 | Success clears the content and invalidates nothing. Failure keeps the content. |
| Tweets.SubmitsKeepNoBlankTweets | src/pages/CreateTweet.tsx:59-61 | Neither composer ever stores a blank tweet. |
| Tweets.ComposersAgreeOnTrimmedText | src/components/CreateTweet.tsx:42-44 | The composers accept the same submissions. They store the same row exactly when the text has no surrounding whitespace. |
| Tweets.PageFailureMayHaveStored | src/pages/CreateTweet.tsx:28-38 | A reported failure can follow a stored row. A retry then stores the text twice. |
| ProfileStats.UserStats | src/components/Profile.tsx:12-44 | With no user id the result is null. Any read error throws "Failed to fetch stats". The counts are the row counts. `uniqueCommunities` is the number of distinct ids, which is at most the row count. |
| ProfileStats.UniqueCount | src/components/Profile.tsx:36 | `new Set(ids).size`, counted in one pass, is the number of distinct ids, and at most the number of ids. |
| ProfileStats.ElementsBound | src/components/Profile.tsx:36 | A list has no more distinct values than elements. |
| ProfileStats.ElementsAppend | src/components/Profile.tsx:36 | A repeated community id does not increase the count. A new one increases it by one. |
| NavBar.NewProfileName | src/pages/NavBar.tsx:48 | The new profile's name is the metadata name, else the e-mail prefix before '@', else "user". It is never empty. |
| NavBar.NewProfile | src/pages/NavBar.tsx:46-51 | The inserted row carries the user's id and name. The avatar is the metadata avatar or "". |
| NavBar.CreateProfileIfMissing | src/pages/NavBar.tsx:27-63 | Nothing happens without a user or after a lookup error. A profile is inserted only when none exists. No existing row ever changes. |
| NavBar.ExistingProfileKept | src/pages/NavBar.tsx:43-52 | Once a user has a profile, the effect leaves the table alone, whatever its calls return. |
| NavBar.CreateProfileIdempotent | src/pages/NavBar.tsx:27-63 | Running the effect again after it succeeded changes nothing. |
| NavBar.DisplayName | src/pages/NavBar.tsx:65 | The greeting is the metadata name when it is non-empty, else the e-mail. |
| NavBar.GreetingMatchesProfileName | src/pages/NavBar.tsx:48-65 | The greeting and the new profile's name coincide for a metadata name, or for an e-mail without '@'. |
| NavBar.GreetingDiffersFromProfileName | src/pages/NavBar.tsx:48-65 | Without a metadata name, an e-mail with '@' is greeted in full. The profile is named after the part before the first '@', a proper prefix, or "user" when that part is empty. The two names always differ. |
| Messaging.FilteredUsers | src/components/MessagingPage.tsx:48-50 | `filteredUsers` is the users whose name contains the search, ignoring case, in their loaded order. An empty search keeps all users. |
| Messaging.ShownUsers | src/components/MessagingPage.tsx:105-111 | While loading nothing is listed. Afterwards `filteredUsers` is listed. |
| Messaging.SelectUser | src/components/MessagingPage.tsx:115-118 | Clicking a user selects them and hides the list. |
| Messaging.ShowList | src/components/MessagingPage.tsx:57-58 | The back button shows the list without clearing the selected user. |
| Messaging.SelectBackSelect | src/components/MessagingPage.tsx:55-58 | Selecting brings up the chat header, and going back hides it while the chat stays on that user. |
| Messaging.Step | src/components/MessagingPage.tsx:98-118 | A click on a rendered entry selects that user. A click elsewhere does nothing. |
| Messaging.AsWrittenNeverSelects | src/components/MessagingPage.tsx:17-46 | As written, after any events the page is still loading and no user is selected. |
| Messaging.LoadUsersAndFollows | src/components/MessagingPage.tsx:24-46 | Both lists are replaced only when both reads succeed, and a `null` answer gives an empty list. Loading ends either way. |
| Messaging.MountedCanSelect | src/components/MessagingPage.tsx:24-50 | A page that loads on mount lists every loaded user, and clicking the i-th opens the chat with them. |
| UserSearch.SearchPattern | src/pages/UserList.tsx:29-31 | The `ilike` pattern `%q%` is applied only when the query is non-empty. |
| UserSearch.PatternRoundTrip | src/pages/UserList.tsx:29-31 | The query can be read back off the pattern. |
| UserSearch.PatternInjective | src/pages/UserList.tsx:29-31 | Different queries send different requests. |
| UserSearch.StartFetch | src/pages/UserList.tsx:24 | A fetch starts by setting loading. |
| UserSearch.FinishFetch | src/pages/UserList.tsx:33-41 | On an error the list is unchanged. Otherwise it is the answer minus the signed-in user, in order. Loading is false afterwards. |
| UserSearch.FetchExcludesSelf | src/pages/UserList.tsx:38-39 | The list never contains the signed-in user, contains every other returned profile, and keeps the store's order. |
| UserSearch.SearchListsMatchingOthers | src/pages/UserList.tsx:25-41 | For search text without `%`, `_` or backslash, the picker lists exactly the profiles other than mine whose name contains the text, ignoring case. The list is the one the discover page's client-side filter gives over everyone but me. |

## Left out

- Supabase calls themselves are parameters, not code. These store behaviours are taken as given:
  - server filters, `ilike`, `.or`, `order`, `neq`, `gte` and the inner join;
  - the server's handling of `neq(..., null)`;
  - the RPCs;
  - storage.
  - Reads are the rows the store returns. Each write's success is a boolean.
- Server-assigned ids and timestamps, `Date.now()`, `new Date().toISOString()` and `getPublicUrl` are parameters.
- `UserSearch.SearchListsMatchingOthers`: the store's `ilike` is modelled only for search text free of `%`, `_` and backslash. The code does not escape them, and in other text they act as pattern characters.
- The 300 ms debounce in src/pages/UserList.tsx:44-48 is left out. A fetch is modelled as a start step and a finish step.
- react-query's cache is left out. Only the key that a mutation invalidates is modelled.
- Navigation, toasts, animations, `URL.createObjectURL`, JSX and styling are left out. So is the 280-character limit, which the browser enforces in the text areas.
- `trim` and `toLowerCase` are ASCII-only. Full Unicode folding and whitespace are not modelled.
- `Number(value)` in the community select is modelled only for strings of digits, which are the only values its options render.
- Metadata is always present on a user. The component tweet composer would throw on a missing `user_metadata`, and the model does not represent that case.
- In the follow handlers, the signed-in user's id is passed as a plain id. The source sends `user?.id`, which may be undefined.
- `Tweets.PageFailureMayHaveStored`: the reply `StoredUnseen` is an assumption about the store, not something the code shows. It says that the `insert().select().single()` call at src/pages/CreateTweet.tsx:28-36 can store the row and still report an error or return no row. The lemma holds only under that assumption.
- `ChatWidget.Submit`: a message without a sender is treated as refused by the store. No check in the code says so.
- `ProfileStats.UserStats`: the counts are the lengths of the rows each read returns. Whether those rows are exactly the user's posts, comments and likes is up to the server filters, which are not modelled.
- Fetch-and-render-only screens, with no decision logic, are not part of this model:
  - src/components/MyPosts.tsx, PostList.tsx, TweetList.tsx, PostDetail.tsx, TweetDetail.tsx, UserPostsPage.tsx, PostItem.tsx, TweetItem.tsx, UserList.tsx and MyTweets.tsx;
  - src/pages/Home.tsx and src/pages/CommunitiesPage.tsx;
  - the static and routing files GamingHub.tsx, GameCard.tsx and App.tsx.
- The commented-out earlier revisions at src/components/CreatePost.tsx:1-192 and src/components/LikeButton.tsx:1-135 are not modelled.
- src/pages/NavBar.tsx:92 holds a stray `==` that makes the file unparsable. Only the profile-creation effect and the greeting are modelled.

## Findings

| source | as written | input that shows it | evidently intended | confidence | as-written member | corrected member |
|---|---|---|---|---|---|---|
| src/components/MessagingPage.tsx:21-46 | `fetchUsersAndFollows` is defined but never called, and `loading` starts true. | Mounting the page, then any sequence of typing, clicks and back presses. The list stays on "Loading users..." and no chat can be opened. | Load the users on mount, as src/components/FollowUsersPage.tsx:42 does. | high; not executed | Messaging.AsWrittenNeverSelects | Messaging.MountedCanSelect |
