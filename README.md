# MentorMatch core in Dafny

MentorMatch (Berlin-life/mentor_A) is a mentorship web application. Users
register as mentors or mentees and verify their email with a one-time code.
They send each other connection requests, book sessions, talk in a one-to-one
chat and post in a forum. The server recommends people by the Jaccard similarity
of their skills and interests.

This project models that core and proves properties of the model:

- the recommender (`matching.dfy`);
- the six Express controllers, each as a pure step function over an in-memory
  collection, plus an imperative method on a class holding the collection
  (`auth_controller.dfy`, `request_controller.dfy`, `session_controller.dfy`,
  `post_controller.dfy`, `message_controller.dfy`, `user_controller.dfy`);
- the entry point's CORS decisions and the chat relay over socket rooms
  (`server_index.dfy`);
- the Mongoose schemas as datatypes with their setters, defaults and enums
  (`*_model.dfy`);
- the browser's pure helpers: booking times, the tag input, the request and
  session lists, the chat senders and timer, and the forum filter
  (`client_*.dfy`).

Each collection class has `all: seq<...>` and `nextId`. Its methods are proved
against the step function: the new contents, the new `nextId` and the reply
equal what the function gives for the old state. The properties are lemmas
about those functions.

The outside world enters as parameters:

- the clock is `now` (milliseconds);
- `Math.random()` is a `draw` in [0, 1);
- the bcrypt comparison is a `matches` function;
- the mail server's success is `mailOk`;
- the authenticated user is `caller`;
- environment variables are `Option<string>`.

Hashing is not modelled: the hashed password is a parameter. A request-body field
that the code only tests for truthiness treats the empty string as absent. Other
optional inputs are `Option`.

Two points about what the code does:

- a Session's status can be `pending` in this model, because the controller
  writes it and the client reads it, even though the schema's enum omits it;
- the socket server handles only `join_room`, `send_message` and `disconnect`,
  and a Message has no reactions, reply reference or deletion path.

## Model

| member | source | states |
|---|---|---|
| Matching.TagsAreLowered | server/src/utils/matchingAlgorithm.js:6-7 | every skill and interest appears in the tag set in lower case, and every tag is already lower case |
| Matching.TagsIgnoreCase | server/src/utils/matchingAlgorithm.js:6-7 | two users whose tags agree after lower-casing have the same tag set |
| Matching.TagsIgnoreDuplicates | server/src/utils/matchingAlgorithm.js:6-7 | order and repetition of tags do not change the tag set |
| Matching.Jaccard | server/src/utils/matchingAlgorithm.js:9-14 | the index is in [0, 1] |
| Matching.SimilarityIsJaccard | server/src/utils/matchingAlgorithm.js:4-15 | the score is 0 when either tag set is empty, otherwise the intersection size over the union size, and always in [0, 1] |
| Matching.SimilaritySymmetric | server/src/utils/matchingAlgorithm.js:4-15 | the score of a and b equals the score of b and a |
| Matching.SimilarityOneIffEqual | server/src/utils/matchingAlgorithm.js:9-14 | with both tag sets non-empty, the score is 1 exactly when the tag sets are equal |
| Matching.SimilarityZeroIffDisjoint | server/src/utils/matchingAlgorithm.js:9-14 | the score is 0 exactly when the tag sets share no tag |
| Matching.Recommendations | server/src/utils/matchingAlgorithm.js:17-24 | one entry per candidate, each scored by the similarity with the current user, in non-increasing score order, a permutation of the scored candidates |
| Matching.RecommendationsPermuteCandidates | server/src/utils/matchingAlgorithm.js:18-23 | the ranked users are exactly the candidates, with multiplicity |
| UserModel.ParseRole | server/src/models/User.js:20-24 | a role is accepted exactly when it is `mentor` or `mentee`, and it names itself |
| UserModel.NormaliseEmail | server/src/models/User.js:9-15 | the stored email has no upper-case ASCII letters and no surrounding white space, and is empty exactly when the input is blank |
| UserModel.NormaliseEmailIdempotent | server/src/models/User.js:13-14 | normalising a normalised email changes nothing, so lookups by a stored email find it |
| UserModel.TrimAll | server/src/models/User.js:25-32 | every tag is trimmed, positions kept |
| UserModel.NewUser | server/src/models/User.js:3-69 | a new user has the trimmed name, the normalised email, trimmed tags, empty profile texts, is unverified and holds the given code and expiry |
| UserModel.PublicOmitsOnlyPassword | server/src/controllers/userController.js:7 | two users have the same public projection exactly when they differ at most in the password |
| UserModel.IndexOfEmail | server/src/controllers/authController.js:17 | the lookup returns the first user whose email equals the normalised query, and none exactly when no user has it |
| UserModel.WellFormedAppend | server/src/models/User.js:12 | appending a user with the next id and an unused email keeps ids and emails unique |
| UserModel.WellFormedUpdate | server/src/models/User.js:12 | replacing a user by one with the same id and email keeps ids and emails unique |
| UserModel.IndexOfEmailUpdate | server/src/models/User.js:9-15 | replacing a user without changing its email does not change any email lookup |
| UserModel.IndexOfEmailAppend | server/src/models/User.js:9-15 | a newly appended email is found at the new position |
| UserModel.IndexOfIdUpdate | server/src/models/User.js:3 | replacing a user without changing its id does not change any id lookup |
| UserModel.Users.Replace | server/src/controllers/authController.js:35 | `save()` on a stored user: the user at that position is replaced, the id counter is kept, and ids and emails stay unique |
| UserModel.Users.Insert | server/src/controllers/authController.js:44 | `save()` on a new user: the user is appended with the next id, the counter advances by one, and ids and emails stay unique |
| UserModel.IndexOfSameEmail | server/src/models/User.js:9-15 | two emails with the same normalised form find the same account |
| RequestModel.IndexOfId | server/src/controllers/requestController.js:67 | `findById`: the first request with that id, none exactly when no request has it |
| RequestModel.OnePerPairImpliesIndex | server/src/models/Request.js:28 | at most one request per unordered pair implies the unique (sender, receiver) index |
| SessionModel.ParseStatus | server/src/models/Session.js:22-26 | a status string is accepted exactly when it is one of the four statuses the code uses, and it names itself |
| SessionModel.StatusNameRoundTrip | server/src/models/Session.js:22-26 | the name of every status parses back to that status |
| SessionModel.Sessions.Replace | server/src/controllers/sessionController.js:70 | `save()` on a stored session: that position is replaced, the counter is kept, and every id stays below it |
| SessionModel.Sessions.Insert | server/src/controllers/sessionController.js:27 | `save()` on a new session: it is appended with the next id and the counter advances by one |
| SessionModel.IndexOfIdReplace | server/src/controllers/sessionController.js:57-70 | replacing a session by one with the same id leaves every id lookup unchanged |
| PostModel.ParseCategory | server/src/models/Post.js:34-38 | a category is accepted exactly when it is one of the four enum values |
| PostModel.NamesParse | server/src/models/Post.js:34-38 | every enum value is non-empty, is accepted, and names the category it parses to |
| PostModel.Posts.Replace | server/src/controllers/postController.js:73 | `save()` on a stored post: that position is replaced, the counter is kept, and every id stays below it |
| PostModel.Posts.Insert | server/src/controllers/postController.js:17 | `save()` on a new post: it is appended with the next id and the counter advances by one |
| MessageModel.ParseType | server/src/models/Message.js:18-22 | a message type is accepted exactly when it is one of the six enum values |
| MessageModel.Messages.Insert | server/src/index.js:89 | `save()` on a new message: it is appended unread with the next id and the counter advances by one |
| AuthController.OtpValue | server/src/controllers/authController.js:7 | the drawn code is a number from 100000 to 999999 |
| AuthController.GenerateOtp | server/src/controllers/authController.js:7 | the code is six decimal digits whose value is in [100000, 999999] |
| AuthController.Register | server/src/controllers/authController.js:10-58 | the registration method keeps the collection well formed and does exactly what the step function says, with the drawn code and an expiry ten minutes after `now` |
| AuthController.RegisterPreservesWellFormed | server/src/controllers/authController.js:26-44 | registration keeps ids below `nextId`, ids unique and emails unique |
| AuthController.RegisterRejectsVerified | server/src/controllers/authController.js:17-19 | registering an email that belongs to a verified user fails with 400 'User already exists' and changes nothing |
| AuthController.RegisterOverwritesUnverified | server/src/controllers/authController.js:26-35 | registering over an unverified user replaces its name, password, role, tags, code and expiry in place, keeps its id, email and profile, changes no other user, and replies with the OTP message (or 500 when mail fails) |
| AuthController.RegisterCreatesUnverified | server/src/controllers/authController.js:37-44 | a new email creates one unverified user with the next id, the normalised email, the trimmed name and the fresh code |
| AuthController.RegisterIssuesFreshOtp | server/src/controllers/authController.js:23-24 | whenever registration stores something, the stored code is six decimal digits reading as a number from 100000 to 999999, and it expires at `now + 600000` |
| AuthController.RegisterChanged | server/src/controllers/authController.js:17-45 | whenever registration changes the store, the role was valid and either the unverified account with that email was overwritten in place or a new account was appended |
| AuthController.RegisterStoresOtp | server/src/controllers/authController.js:23-44 | whenever registration changes the store, the account written holds exactly the drawn code and the computed expiry |
| AuthController.VerifyOtp | server/src/controllers/authController.js:61-94 | the verification method keeps the collection well formed and follows the step function |
| AuthController.VerifySucceedsIff | server/src/controllers/authController.js:66-87 | verification succeeds exactly when the user exists, is unverified, holds that code, the code has not expired and the record validates; then the user is verified with the code cleared; otherwise nothing changes |
| AuthController.VerifyTwiceRefused | server/src/controllers/authController.js:68 | after a successful verification, any further verification of the same email fails with 'Email already verified' |
| AuthController.VerifyPreservesWellFormed | server/src/controllers/authController.js:75-78 | verification keeps the collection well formed |
| AuthController.ResendOtp | server/src/controllers/authController.js:97-115 | the resend method keeps the collection well formed and follows the step function with a freshly drawn code |
| AuthController.ResendChangesOnlyOtp | server/src/controllers/authController.js:100-110 | resending changes only the code and expiry of an existing unverified user; an unknown email gets 'User not found' and a verified one 'Email already verified' |
| AuthController.ResendThenVerify | server/src/controllers/authController.js:97-115 | after a resend, verification succeeds exactly with the new code before the new expiry, so the old code stops working |
| AuthController.ResendPreservesWellFormed | server/src/controllers/authController.js:108-110 | resending keeps the collection well formed |
| AuthController.Login | server/src/controllers/authController.js:118-141 | login succeeds exactly for a verified user whose password matches; an unverified user gets 403, every other failure 400 'Invalid Credentials' |
| AuthController.RegisteredCannotLoginYet | server/src/controllers/authController.js:128-130 | right after a registration that stores a user, logging in with that email is refused with 403 whatever the password |
| AuthController.RegisterStep | server/src/controllers/authController.js:10-58 | the outcome of a registration on the store: refusal, overwrite of an unverified account or a new account, then the mail reply |
| AuthController.VerifyStep | server/src/controllers/authController.js:61-94 | the outcome of an OTP verification on the store |
| AuthController.ResendStep | server/src/controllers/authController.js:97-115 | the outcome of an OTP resend on the store |
| RequestController.FindBetween | server/src/controllers/requestController.js:19-25 | finds a request between the two users in either direction, none exactly when there is none |
| RequestController.SendRequest | server/src/controllers/requestController.js:5-43 | the send method keeps ids and the unique index intact and follows the step function |
| RequestController.SendSucceedsIff | server/src/controllers/requestController.js:9-35 | a request is stored exactly when it is not to oneself, the receiver exists and no request links the pair in either direction; it is pending, gets the next id and the message or '' |
| RequestController.SendRefusesReverse | server/src/controllers/requestController.js:19-28 | a request is refused as a duplicate when the other user already sent one the other way |
| RequestController.SendPreservesPairs | server/src/controllers/requestController.js:19-35 | sending keeps "no self requests" and "one request per pair" |
| RequestController.GetRequests | server/src/controllers/requestController.js:46-60 | exactly the caller's requests, sent or received, with multiplicity, newest first |
| RequestController.HandleRequest | server/src/controllers/requestController.js:63-88 | the answer method keeps the collection valid and follows the step function |
| RequestController.HandleChangesOnlyStatus | server/src/controllers/requestController.js:67-83 | answering succeeds exactly for the receiver with `accepted` or `rejected`, and then changes only that request's status |
| RequestController.HandleReopens | server/src/controllers/requestController.js:77-83 | an answered request can be answered again by its receiver, and takes the latest answer |
| RequestController.HandlePreservesPairs | server/src/controllers/requestController.js:63-88 | answering keeps "no self requests" and "one request per pair" |
| RequestController.SendStep | server/src/controllers/requestController.js:5-43 | the outcome of sending a request on the store |
| RequestController.HandleStep | server/src/controllers/requestController.js:63-88 | the outcome of answering a request on the store |
| SessionController.CreateAsWrittenAlwaysFails | server/src/controllers/sessionController.js:17-25 | against the schema as written, creating a session never stores anything, and with both users present and a date it is a 500 |
| SessionController.CreateSucceedsIff | server/src/controllers/sessionController.js:5-33 | with `pending` in the enum, a session is stored exactly when both users exist and a date is given; it is pending, has no link, the given or default 60-minute duration, the next id; it is stamped with the request time as `createdAt` |
| SessionController.CreateSession | server/src/controllers/sessionController.js:5-33 | the create method keeps the collection valid and follows the corrected step function |
| SessionController.GetSessions | server/src/controllers/sessionController.js:36-50 | exactly the sessions where the caller is mentor or mentee, with multiplicity, in ascending date order |
| SessionController.UpdateAsWrittenRefusesPending | server/src/controllers/sessionController.js:67-70 | against the schema as written, no session can be set to `pending` |
| SessionController.UpdateSessionStatus | server/src/controllers/sessionController.js:53-76 | the update method keeps the collection valid and follows the step function |
| SessionController.UpdateChangesOnlyStatusAndLink | server/src/controllers/sessionController.js:58-70 | an update succeeds exactly for a participant with an empty or known status, and changes only the status (if sent) and the link (if sent) of that session |
| SessionController.UpdateIdempotent | server/src/controllers/sessionController.js:53-76 | repeating an update leaves the store as the first one left it |
| SessionController.CreateStepWith | server/src/controllers/sessionController.js:5-33 | the outcome of a booking under a given status enum |
| SessionController.CreateStepAsWritten | server/src/controllers/sessionController.js:5-33 | the booking outcome against the schema's enum as written |
| SessionController.CreateStep | server/src/controllers/sessionController.js:5-33 | the booking outcome with `pending` in the enum |
| SessionController.UpdateStepWith | server/src/controllers/sessionController.js:53-76 | the outcome of a status update under a given status enum |
| SessionController.UpdateStepAsWritten | server/src/controllers/sessionController.js:53-76 | the status update outcome against the schema's enum as written |
| SessionController.UpdateStep | server/src/controllers/sessionController.js:53-76 | the status update outcome with `pending` in the enum |
| PostController.CategoryOrDefault | server/src/controllers/postController.js:9 | an absent or empty category is `general`; any other is checked by the enum |
| PostController.CreatePost | server/src/controllers/postController.js:5-23 | the create method keeps ids valid and follows the step function |
| PostController.CreateSucceedsIff | server/src/controllers/postController.js:5-23 | a post is stored exactly when its title is not blank, it has content and the category is valid; it belongs to the caller, has the trimmed title, the content as sent, the trimmed tags in the order sent, the category sent (or `general` when none or an empty one is sent), no likes, no comments and the request time as `createdAt`; a refused post changes nothing |
| PostController.GetPosts | server/src/controllers/postController.js:26-36 | every post, with multiplicity, newest first |
| PostController.GetPostById | server/src/controllers/postController.js:39-57 | the post with that id, or 404 'Post not found' exactly when there is none |
| PostController.AddComment | server/src/controllers/postController.js:60-80 | the comment method keeps ids valid and follows the step function |
| PostController.CommentPrepends | server/src/controllers/postController.js:67-73 | a comment goes in front of that post's comments, the earlier ones are kept in order, and no other post changes |
| PostController.ToggleLike | server/src/controllers/postController.js:91-97 | after the toggle the user likes the post exactly when they did not before; nobody else's likes change; unliking keeps the remaining likes in order, and a new like goes first |
| PostController.ToggleTwiceRestores | server/src/controllers/postController.js:91-97 | liking then unliking restores the likes exactly |
| PostController.ToggleKeepsDistinct | server/src/controllers/postController.js:91-97 | toggling keeps the likes free of duplicates |
| PostController.LikePost | server/src/controllers/postController.js:83-105 | the like method keeps ids valid and follows the step function |
| PostController.LikeTwiceRestores | server/src/controllers/postController.js:83-105 | two likes in a row by a user who had not liked the post leave the store as it was |
| PostController.CreateStep | server/src/controllers/postController.js:5-23 | the outcome of creating a post on the store |
| PostController.CommentStep | server/src/controllers/postController.js:60-80 | the outcome of adding a comment on the store |
| PostController.LikeStep | server/src/controllers/postController.js:83-105 | the outcome of toggling a like on the store |
| MessageController.GetMessages | server/src/controllers/messageController.js:4-21 | exactly the messages between the two users, in either direction, with multiplicity, oldest first |
| MessageController.GetMessagesSymmetric | server/src/controllers/messageController.js:8-13 | both users of a conversation see the same history |
| MessageController.GetMessagesKeepsStoredOrder | server/src/controllers/messageController.js:8-14 | when the store is in creation order, the history is the store's own subsequence |
| UserController.GetMe | server/src/controllers/userController.js:5-13 | the caller's public record, or nothing exactly when the caller is not stored |
| UserController.GetUserById | server/src/controllers/userController.js:57-69 | the public record with that id, or 404 'User not found' exactly when there is none |
| UserController.UpdateProfile | server/src/controllers/userController.js:16-35 | the profile method keeps ids and emails unique and follows the step function |
| UserController.UpdateTouchesOnlyWhitelist | server/src/controllers/userController.js:17-28 | only the caller's record changes, and only in the nine whitelisted fields: each field that was sent takes the sent value (name, skills and interests trimmed), each field not sent keeps its value; id, email, password, role and verification state never change |
| UserController.EmptyUpdateChangesNothing | server/src/controllers/userController.js:17-28 | an update with no fields leaves the store unchanged |
| UserController.TargetRole | server/src/controllers/userController.js:44 | mentees are shown mentors, everyone else mentees, never their own role |
| UserController.GetMatches | server/src/controllers/userController.js:38-54 | an unknown caller gets 500; otherwise one match per user of the other role, all of that role, each scored by that user's similarity to the caller, ranked by non-increasing score, holding exactly those users |
| UserController.RankedMatches | server/src/controllers/userController.js:44-47 | for candidates of one role, the ranked matches are one per candidate, all of that role, ordered by non-increasing score, and hold exactly the candidates' public projections |
| UserController.MatchesScored | server/src/controllers/userController.js:47 | each ranked match is the projection of a candidate, scored by that candidate's similarity to the caller |
| UserController.MatchesPermuteCandidates | server/src/controllers/userController.js:44-47 | the matched users are the candidates' public records, with multiplicity |
| UserController.MatchesExcludeCaller | server/src/controllers/userController.js:44-47 | the caller never appears among their own matches |
| UserController.UpdateStep | server/src/controllers/userController.js:16-35 | the outcome of a profile update on the store |
| ServerIndex.ClientUrl | server/src/index.js:15 | an unset or empty `CLIENT_URL` falls back to `http://localhost:5173` |
| ServerIndex.CorsAllows | server/src/index.js:17-28 | the HTTP origin check: no origin, a development origin starting with `http://localhost`, or the client URL in production |
| ServerIndex.SocketAllows | server/src/index.js:30-35 | the socket server's origin check: the client URL in production, `http://localhost:<digits>` in development |
| ServerIndex.ProdChecksAgree | server/src/index.js:17-35 | in production the HTTP and socket origin checks agree on every origin sent |
| ServerIndex.DevSocketImpliesCors | server/src/index.js:22 | in development every origin the socket server admits, HTTP admits too |
| ServerIndex.CorsAdmitsLookalikeHost | server/src/index.js:22 | as written, development HTTP admits `http://localhost.example.com`, which the socket rule refuses |
| ServerIndex.IntendedChecksAgree | server/src/index.js:21-22 | with development HTTP limited to `http://localhost:<port>`, the HTTP and socket checks admit the same origins in both environments, and admit less than before |
| ServerIndex.OrEmpty | server/src/index.js:83-87 | an absent field becomes '' |
| ServerIndex.NewMessage | server/src/index.js:79-89 | a message is saved exactly when sender and receiver are present and the type is absent, empty or in the enum; missing texts are '', the type defaults to text, it is unread |
| ServerIndex.Relay.JoinRoom | server/src/index.js:74-76 | the socket is added to the room named by the id it sends, and nothing else changes |
| ServerIndex.Relay.Connect | server/src/index.js:71-72 | a new socket is in no room and nothing is emitted |
| ServerIndex.Relay.Disconnect | server/src/index.js:97-99 | the socket leaves every room |
| ServerIndex.Relay.SendMessage | server/src/index.js:78-95 | a valid message is stored once and emitted to the receiver's room and then the sender's room; an invalid one stores and emits nothing |
| ServerIndex.SendReachesBothRooms | server/src/index.js:90-91 | a socket receives the message exactly when it is in either user's room, one copy per room it is in, so twice when it is in both (always so for a message to oneself) |
| ClientSessions.Hour24 | client/src/pages/Sessions.jsx:32-37 | 12 AM is hour 0, 12 PM hour 12, another PM hour gains 12, another AM hour is unchanged |
| ClientSessions.ToMins | client/src/pages/Sessions.jsx:32-37 | the picked time as minutes since midnight |
| ClientSessions.ToTime24 | client/src/pages/Sessions.jsx:40-45 | the picked time as a 24-hour `HH:MM` string |
| ClientSessions.BookSession | client/src/pages/Sessions.jsx:47-62 | the booking payload, or the end-before-start refusal |
| ClientSessions.ToMinsInDay | client/src/pages/Sessions.jsx:32-37 | every time the pickers can hold is a minute of the day, in [0, 1440) |
| ClientSessions.ToMinsInjective | client/src/pages/Sessions.jsx:32-37 | different picked times give different minutes |
| ClientSessions.Time24AgreesWithMins | client/src/pages/Sessions.jsx:40-45 | the 24-hour string is `HH:MM` and reads back as the same minute of the day |
| ClientSessions.BookingRules | client/src/pages/Sessions.jsx:47-67 | a booking is sent exactly when the end is after the start; its duration is that difference and ends the same day; a mentee caller is the mentee and a mentor caller the mentor |
| ClientSessions.PreviewFor | client/src/pages/Sessions.jsx:160-162 | the warning shows exactly when the duration is not positive |
| ClientSessions.DurationLabelReadsBack | client/src/pages/Sessions.jsx:161 | the duration text names whole hours and leftover minutes (or minutes below an hour), and they add back up to the duration |
| ClientProfile.KeyDown | client/src/pages/Profile.jsx:8-20 | Enter or a comma with non-blank text clears the text; a trimmed text already among the tags leaves them unchanged, a fresh one is appended after the kept tags; other keys keep the text; at most one tag is added |
| ClientProfile.KeyDownKeepsDistinct | client/src/pages/Profile.jsx:11-14 | key presses never create a duplicate tag |
| ClientProfile.OnlyCommitsAdd | client/src/pages/Profile.jsx:17-19 | without a commit the tags stay, or lose the last one exactly on Backspace with empty text |
| ClientProfile.CommittedTagIsTrimmed | client/src/pages/Profile.jsx:9-11 | tags stay trimmed and non-empty, so blank text never becomes a tag |
| ClientProfile.CommitThenBackspace | client/src/pages/Profile.jsx:8-20 | committing a new tag and pressing Backspace on the cleared text gives the old tags back |
| ClientProfile.RemoveTagRemovesOne | client/src/pages/Profile.jsx:22-24 | removing position i drops exactly that tag and keeps the rest in order; an index outside the list changes nothing |
| ClientProfile.RemoveTagKeepsDistinct | client/src/pages/Profile.jsx:22-24 | removing a tag keeps the tags free of duplicates |
| ClientProfile.RemoveTag | client/src/pages/Profile.jsx:22-24 | the tags without position `index` |
| ClientRequests.Incoming | client/src/pages/Requests.jsx:29 | exactly the pending requests addressed to me (also the list at SessionRequests.jsx line 19) |
| ClientRequests.Sent | client/src/pages/Requests.jsx:30 | exactly the requests I sent |
| ClientRequests.IncomingAndSentDisjoint | client/src/pages/Requests.jsx:29-30 | with no self-addressed requests, no request is in both lists |
| ClientRequests.AnswerSucceeds | client/src/pages/Requests.jsx:54-55 | accepting or rejecting a request from my incoming list always succeeds on the server and changes only that request's status |
| ClientRequests.Connections | client/src/pages/Chat.jsx:44-45 | the contact list (also Sessions.jsx lines 23-24) has one entry per accepted request, in list order: entry i is the other user of the i-th accepted request |
| ClientRequests.ConnectionsAreAcceptedPartners | client/src/pages/Chat.jsx:44-45 | for the requests the server lists for me, the contacts are exactly the users linked to me by an accepted request, and never me |
| ClientSessionRequests.PendingSessions | client/src/pages/SessionRequests.jsx:45 | exactly the pending sessions in which I am the mentor |
| ClientSessionRequests.Upcoming | client/src/pages/SessionRequests.jsx:46 | exactly the scheduled sessions dated after now |
| ClientSessionRequests.Past | client/src/pages/SessionRequests.jsx:47 | exactly the completed sessions and the scheduled ones dated now or earlier |
| ClientSessionRequests.UpcomingAndPastPartition | client/src/pages/SessionRequests.jsx:46-47 | each scheduled or completed session is in exactly one of the two lists, pending and cancelled ones in neither |
| ClientSessionRequests.ActionToast | client/src/pages/SessionRequests.jsx:37 | only accepting shows 'Session accepted!'; completing shows 'Session rejected.' |
| ClientSessionRequests.ActionSucceeds | client/src/pages/SessionRequests.jsx:79-82 | accept, reject and complete on one of my sessions are accepted by the server, also against the schema as written, and set exactly that status |
| ClientChat.TextSendStored | client/src/pages/Chat.jsx:63-71 | a text is sent exactly when it is not blank and a contact is open, and the server stores it unchanged from me to that contact |
| ClientChat.TextPayload | client/src/pages/Chat.jsx:63-71 | the `send_message` payload of a text, or nothing |
| ClientChat.StickerPayload | client/src/pages/Chat.jsx:73-80 | the `send_message` payload of a sticker, or nothing |
| ClientChat.FilePayload | client/src/pages/Chat.jsx:91-99 | the `send_message` payload of a file, or nothing |
| ClientChat.StickerSendStored | client/src/pages/Chat.jsx:73-80 | a sticker is sent exactly when a contact is open, and stored as a sticker |
| ClientChat.FileSendStored | client/src/pages/Chat.jsx:91-99 | a file is sent exactly when there is one and a contact is open, and stored exactly when its kind is in the enum |
| ClientChat.Receive | client/src/pages/Chat.jsx:34-36 | a received message is appended to the open conversation, whichever contact it is from |
| ClientChat.IsSelfByIdOnly | client/src/pages/Chat.jsx:148 | a bubble is mine exactly when its sender's id, bare or populated, is mine |
| ClientChat.IsSelf | client/src/pages/Chat.jsx:148 | a bubble is mine when its bare or populated sender is me |
| ClientChat.FormatTimeReadsBack | client/src/pages/Chat.jsx:144 | under 100 minutes the timer text is `mm:ss` and reads back as the seconds |
| ClientChat.FormatTime | client/src/pages/Chat.jsx:144 | the timer text, minutes and seconds each padded to two digits |
| ClientForum.FilterPosts | client/src/pages/Forum.jsx:72 | `all` shows every post unchanged; a category shows exactly the posts of that category and no others |
| ClientForum.FilterPostsKeepsOrder | client/src/pages/Forum.jsx:72 | the filter distributes over concatenation and keeps a single post exactly when it qualifies, so the shown posts are those of the category in the listed order |
| ClientForum.UnknownFilterShowsNothing | client/src/pages/Forum.jsx:72 | a filter value that is no category shows nothing |
| ClientForum.CategoryViewsPartition | client/src/pages/Forum.jsx:64-72 | the four category views together show every post once |
| ClientForum.ChangeWhere | client/src/pages/Forum.jsx:42-52 | the posts with the given id are changed, every other post is kept at its position |
| ClientForum.WithLikes | client/src/pages/Forum.jsx:42 | the like reply replaces the likes of the posts with that id |
| ClientForum.WithComments | client/src/pages/Forum.jsx:52 | the comment reply replaces the comments of the posts with that id |
| ClientForum.LikeKeepsViewInStep | client/src/pages/Forum.jsx:39-44 | after a successful like, every post of the list, updated with the reply, is stored as shown |
| ClientForum.LikeAsWritten | client/src/pages/Forum.jsx:39-44 | the page after a like as written: the list takes the reply, the open post does not |
| ClientForum.LikeLeavesOpenPostStale | client/src/pages/Forum.jsx:196 | liking the open post from the modal always succeeds and changes the stored likes, yet the open post keeps its old likes, so it matches no stored post |
| ClientForum.LikeIntended | client/src/pages/Forum.jsx:51-52 | the page after a like updated as `handleComment` updates it: the list and the open post both take the reply |
| ClientForum.IntendedLikeKeepsPageInStep | client/src/pages/Forum.jsx:39-52 | with the open post updated too, a successful like keeps the list and the open post in step with the store |
| ClientForum.CommentTarget | client/src/pages/Forum.jsx:48 | a comment is sent exactly when it is not blank and a post is open |
| ClientForum.CommentKeepsViewInStep | client/src/pages/Forum.jsx:46-55 | after a successful comment, the open post and every listed post are stored as shown |
| ClientForum.CategoryOptionsMatchSchema | client/src/pages/Forum.jsx:157 | the new-post form offers exactly the schema's four categories, in order |
| ClientForum.FormCategoriesAccepted | client/src/pages/Forum.jsx:157 | every category the form offers passes the server's category check |

## Left out

- Database I/O: Mongoose queries, `populate` and `ObjectId` casting are not modelled. Collections are sequences and references are ids. A malformed id, which Mongoose rejects with a 500 cast error, is just an id that matches nothing here.
- How often ids collide is not modelled. Each collection allocates ids from its own counter, and records refer to one another by id.
- Mongoose 7 drops undefined keys from `$set`. In the profile update an absent field is `None` and is left alone.
- bcrypt hashing and comparison are parameters (`hashed`, `matches`). Register's call to bcrypt with an undefined password (an exception, so a 500) is not modelled separately.
- AuthController.Login: the password is a plain string, so a login body without a password is not expressible; in the source `bcrypt.compare` then rejects and the reply is 500, not 400.
- JWT signing and the `auth` middleware are left out: the caller is the `caller` id. Login does not return a token; its reply is the user part only. The verify reply omits the success text.
- The email service is the `mailOk` flag; SMTP is outside the model.
- The route files, Express, helmet and the JSON body parser are left out. So are the two route mismatches: the client calls PUT `/users/me` while the route is `/users/profile`, and the client expects a token from register that is never sent.
- The client's `AuthContext`, the `api.js` wrapper, every page's rendering, the dashboards, the match and public-profile pages, and the log-in and sign-up forms are left out.
- Chat media (the base64 reading, recording, timers, locale date formatting) is left out: the data URL is a parameter.
- Concurrency is left out: each controller call is one atomic step. Mongoose-level races, such as two registrations of one email at once, are not modelled.
- Lower-casing is ASCII only; JavaScript's `toLowerCase` covers all of Unicode.
- `UserModel.WellFormed` does not state that stored emails are normalised, which every write ensures. It is left out of the invariant to keep proofs small.
- Sorting ties: `SortBy` is a stable insertion sort. MongoDB does not promise any order among equal keys.
- The socket server does not authenticate: `join_room` and `send_message` trust the ids the client sends. The model keeps that, with no check.
- ClientProfile.KeyDown: Enter on blank text does not commit and its default is not prevented, so it submits the profile form; form submission is not part of this model.
- ServerIndex.Relay.Connect: socket.io also puts every new socket in a room named by its socket id; the relay never emits to that room, so the model starts a socket with no rooms.
- `ClientSessions.BookingRules`: the date string is what the client hands to `new Date`. Its interpretation in the browser's time zone is not modelled.
- `ClientChat.FormatTimeReadsBack`: states the `mm:ss` form only below 100 minutes; longer recordings print three-digit minutes.
- `UserController.GetMe`: the source replies `null` with status 200 for a deleted caller; the model's `None` stands for that reply.
- The public projection keeps the code and expiry fields: only the password is removed, as in the source (`select('-password')`).
- What the session list shows for a session whose mentor or mentee was deleted is not modelled. The source's `s.mentor?._id` guards against a null user; ids cannot be null here.

## Findings

| source | as written | input that shows it | evidently intended | confidence | as-written member | corrected member |
|---|---|---|---|---|---|---|
| server/src/controllers/sessionController.js:24 | `createSession` saves `status: 'pending'`, but the schema's status enum (server/src/models/Session.js:22-26) lists only scheduled, completed and cancelled, so the save fails validation | any `createSession` where both users exist and a date is given ends in 500 and stores nothing | `pending` belongs in the enum, so a booking request is stored as pending and the mentor can accept it | not executed | SessionController.CreateAsWrittenAlwaysFails | SessionController.CreateSucceedsIff |
| client/src/pages/Forum.jsx:42 | `handleLike` writes the reply's likes into the list only, though the detail modal (line 196) calls it for the open post and shows that post's heart and count (lines 199-202) | open a post, click its heart: the server toggles the like, the modal keeps the old heart and count | the open post takes the reply as well, as `handleComment` does with `setSelectedPost` (lines 51-52) | not executed | ClientForum.LikeLeavesOpenPostStale | ClientForum.IntendedLikeKeepsPageInStep |
| server/src/index.js:22 | in development the HTTP check admits any origin starting with `http://localhost` | origin `http://localhost.example.com` is admitted by HTTP CORS but refused by the socket server's `/^http:\/\/localhost:\d+$/` | only `http://localhost:<port>` origins, as the comment on line 21 and the socket rule on line 32 say | not executed | ServerIndex.CorsAdmitsLookalikeHost | ServerIndex.IntendedChecksAgree |
