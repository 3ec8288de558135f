# Forest fire prediction: a Dafny model of its decision logic

This project models the pure decision logic of the Forest_Fire_Prediction
system (a FastAPI backend and a React frontend for forest-fire risk in Nepal)
and proves properties of it. There are three groups.

- **The learner and the district scan.** The backend's hand-written
  random-forest classifier (`backend/custom_rf.py`) covers Gini impurity,
  threshold splits, best-split search, recursive tree building, tree
  prediction, majority vote and vote shares. The high-risk district scan
  (`backend/services/scan.py`) filters "High" districts, sorts them stably by
  temperature and keeps the top 12.
- **Sessions and authorisation.** This group covers the server's role and
  approval guards, and the browser's two-key token store with its start-up
  check. It also covers the route guards and route table, a full page load
  (a first render before the start-up check, then renders under the started
  session), and the admin API client with its bearer-header interceptor and
  endpoint paths.
- **Client-side transformations and form state machines.** This group covers
  the FIRMS hotspot URL and CSV parse, and the forgot-password and
  reset-password pages (OTP filtering, the validation chain, error-text
  extraction, the countdown, how the page picks its email). It also covers
  the alert list updates of the two admin pages (create, delete, update,
  edit rows, colours, statistics).

Module layout, one file each:

- Shared vocabulary: `Base` (Option, Result), `Js` (JavaScript values,
  truthiness, property access, object spread, `localStorage`), `Text`
  (split, trim), `Lists` (filter and count).
- Learner: `Impurity`, `Partition`, `DecisionTree`, `RandomForest`.
- Scan: `Scan`.
- Authorisation: `ServerAuth`, `Session`, `Routes`, `AdminApi`.
- Pages: `Hotspots`, `ErrorText`, `Query` (URL query encoding and
  `URLSearchParams`), `ResetPassword`, `ForgotPassword`, `Alerts`,
  `AlertsManagement`, `AdminDashboard`.

Floating-point values are Dafny `real`s. Labels are `int`s.

Several inputs become explicit parameters:

- NumPy's random choices. The feature subset of each node is keyed by the
  node's path from the root. The bootstrap indices of each tree are given
  as a list.
- The weather, elevation and model output of each district.
- The outcome of every HTTP request, as success with a body or failure with
  an error response.
- The user's answer to `window.confirm`.

The tree-building functions take the impurity measure as a parameter. The
forest always passes `Impurity.Gini`, as the source does.

## Model

| member | source | states |
|---|---|---|
| Impurity.GiniBounds | backend/custom_rf.py:5-8 | the Gini impurity of a non-empty label list lies in [0, 1), and it is 0 exactly when every label is the same |
| Impurity.CountsSumToLength | backend/custom_rf.py:6-7 | the counts of the label counter add up to the number of labels |
| Impurity.Distinct | backend/custom_rf.py:6-7 | the counter's keys are exactly the labels present, each once |
| Impurity.AllSameIffOneLabel | backend/custom_rf.py:59 | `len(set(y)) == 1` holds for a non-empty list exactly when all its labels are equal |
| Impurity.MostCommon | backend/custom_rf.py:61 | `most_common(1)` gives a label of maximal count, and among tied labels the one that occurs first |
| Impurity.MostCommonOfUniform | backend/custom_rf.py:59-61 | a list of one repeated label has that label as its most common one |
| Partition.Split | backend/custom_rf.py:11-14 | each side has as many labels as rows, the two sides together hold as many labels as `y`, and every row and label on a side comes from `X` and `y` |
| Partition.SplitSpec | backend/custom_rf.py:11-14 | the left side holds the rows at indices with `X[i][f] <= t` and the right side those with `X[i][f] > t`, each side in increasing index order with labels aligned to rows, and every index is on exactly one side |
| Partition.SidesPartition | backend/custom_rf.py:12-13 | each row index lands on exactly one side |
| Partition.SortedUnique | backend/custom_rf.py:23 | `np.unique` gives the distinct column values in strictly ascending order: a value is in the result exactly when it is in the column |
| DecisionTree.FeatureCandidates | backend/custom_rf.py:23-24 | one feature's candidates all test that feature |
| DecisionTree.FeatureCandidatesCover | backend/custom_rf.py:23-24 | one feature's thresholds ascend strictly, every value of its column is a threshold, and no other value is |
| DecisionTree.Candidates | backend/custom_rf.py:22-24 | every candidate tests a feature below the row width |
| DecisionTree.CandidatesCover | backend/custom_rf.py:22-24 | every value of every listed feature's column is tried, and every candidate tests a listed feature at a value of that feature's column |
| DecisionTree.BestSplit | backend/custom_rf.py:17-39 | a split found tests a feature below the row width |
| DecisionTree.BestSplitSpec | backend/custom_rf.py:17-39 | there is no split exactly when no candidate has two non-empty halves and a strictly positive gain (`NoImprovingSplit`); otherwise the chosen candidate is `FirstBest`: positive gain, maximal, and every earlier candidate's gain strictly lower, so the first best one wins |
| DecisionTree.BestFromScores | backend/custom_rf.py:25-39 | the scan over a candidate list finds nothing exactly when no candidate improves, and otherwise the position of the first best candidate |
| DecisionTree.NodeSplitIsBestSplit | backend/custom_rf.py:73-77 | the empty-half guard after `best_split` never fires, so the node split is exactly the best split |
| DecisionTree.BuildTree | backend/custom_rf.py:54-83 | a tree built from depth `d` is at most `max_depth - d` high; an empty `y` gives leaf 0; every leaf of a tree built from a non-empty `y` holds a label of `y`; every node tests a feature below the row width |
| DecisionTree.Grow | backend/custom_rf.py:79-83 | a node grown below `max_depth` tests the chosen feature and threshold, is at most `max_depth - d` high, has only labels of `y` at its leaves, tests only features below the row width, and has at most one leaf per row |
| DecisionTree.BuildTreeLeafIff | backend/custom_rf.py:56-71 | the result is a leaf exactly when `y` is empty, pure, smaller than `min_samples`, at maximum depth, or has no improving split; the leaf holds 0 for an empty `y` and the most common label otherwise |
| DecisionTree.PredictReachesLeaf | backend/custom_rf.py:86-98 | a prediction is the value of a leaf of the tree, or 0 when a node tests a feature the sample lacks |
| DecisionTree.PredictBuiltTree | backend/custom_rf.py:86-98 | a tree built from a non-empty `y` predicts, for a sample of at least the training width, a label occurring in `y` |
| RandomForest.NewForest | backend/custom_rf.py:102-106 | a new forest keeps its settings and holds no trees |
| RandomForest.DefaultForest | backend/custom_rf.py:102 | the defaults are 100 trees, depth 10 and at least 5 samples, with no trees built |
| RandomForest.ISqrt | backend/custom_rf.py:110 | `int(np.sqrt(n))` is the largest `s` with `s * s <= n` |
| RandomForest.TreeParams | backend/custom_rf.py:110-119 | each tree is built with the forest's depth and sample limits and `int(sqrt(w))` features per node |
| RandomForest.FitTree | backend/custom_rf.py:111-120 | each tree only tests features below the training width, is at most `max_depth` high, and has only training labels in its leaves |
| RandomForest.Fit | backend/custom_rf.py:108-120 | after `fit` the forest holds exactly `n_trees` trees (none for a negative count), and tree `i` is the tree built from bootstrap sample `i` |
| RandomForest.Predict | backend/custom_rf.py:122-126 | one prediction per sample, each the majority vote of the trees; no result when there are samples but no trees |
| RandomForest.PredictIsMajority | backend/custom_rf.py:124-126 | the forest's vote is some tree's vote that no other label outnumbers |
| RandomForest.UnanimousVote | backend/custom_rf.py:122-126 | when every tree votes `c`, the forest predicts `c` |
| RandomForest.FittedPredictionInLabels | backend/custom_rf.py:108-126 | a fitted forest predicts, for a wide enough sample, a label occurring in the training labels |
| RandomForest.PredictProba | backend/custom_rf.py:128-146 | one pair of vote shares per sample; no result when there are samples but no trees |
| RandomForest.ShareBounds | backend/custom_rf.py:139-143 | both shares lie in [0, 1] and their sum is at most 1 |
| RandomForest.BinaryVotes | backend/custom_rf.py:139-143 | the 0 and 1 votes account for every vote exactly when no tree voted any other label |
| RandomForest.ProbaSumsToOne | backend/custom_rf.py:138-144 | the two shares sum to 1 exactly when every tree voted 0 or 1 |
| RandomForest.PredictAgreesWithProba | backend/custom_rf.py:122-146 | on 0/1 votes the predicted class has the larger share, and on equal shares it is the label voted first |
| RandomForest.BinaryMajority | backend/custom_rf.py:122-126 | the most common of a list of 0/1 votes is 0 or 1 with at least the other count, and on equal counts it is the first vote |
| Scan.Entry | backend/services/scan.py:37-42 | an entry carries the district's own name and location, the risk "High", and the weather fields plus `elevation` as details |
| Scan.Collect | backend/services/scan.py:18-45 | the loop yields at most one entry per district, and every entry has risk "High" |
| Scan.CollectFromHighDistricts | backend/services/scan.py:36-42 | every collected entry is the entry of a district probed "High" |
| Scan.CollectKeepsEveryHigh | backend/services/scan.py:36-42 | every district probed "High" has its entry among the collected ones |
| Scan.RaisedIsSkipped | backend/services/scan.py:44-45 | the districts collected with a raising district present are exactly those collected with it removed, so the loop goes on with the rest |
| Scan.SortByTemp | backend/services/scan.py:48 | the sort is a permutation of its input with temperatures non-increasing |
| Scan.SortIsStable | backend/services/scan.py:48 | entries with equal temperature keep their input order |
| Scan.ScanOnly | backend/services/scan.py:62-89 | the result holds at most 12 entries, hottest first, each one a collected "High" entry |
| Scan.ScanKeepsHottest | backend/services/scan.py:87-88 | no dropped "High" entry is hotter than a kept one, and with at most 12 "High" districts all of them are kept |
| Scan.ScanKeepsDistrictOrder | backend/services/scan.py:88 | each collected entry is kept at most as often as it was collected, and among equally hot entries the kept ones are the first of them in district order |
| Scan.ScanEntriesFromDistricts | backend/services/scan.py:79-84 | each result entry is the entry of some district probed "High" |
| Scan.ValidateAlert | backend/models/alert_model.py:5-18 | building a `FireAlert` fails exactly when a required field is missing |
| Scan.ScanAndGenerateAlertsAsWritten | backend/services/scan.py:15-59 | as written, whenever the scan with alerts succeeds it returns the same list as `scan_nepal_only` |
| Scan.AsWrittenFailsOnAnyHighRisk | backend/services/scan.py:51-57 | as written, the scan with alerts fails exactly when some district is probed "High" |
| Scan.AsWrittenCounterexample | backend/services/scan.py:51-57 | one district probed "High" makes the as-written scan fail |
| Scan.ScanAndGenerateAlerts | backend/services/scan.py:47-59 | with complete alerts, the scan returns the same list as `scan_nepal_only` for the same district inputs |
| ServerAuth.GetCurrentUser | backend/auth/dependencies.py:4-12 | the user's email is the token subject, a missing role is `None`, and a missing `is_approved` is false |
| ServerAuth.AdminRequired | backend/auth/dependencies.py:14-17 | the user passes, unchanged, exactly when the role is the string "admin"; otherwise the result is a 403 |
| ServerAuth.ApprovedUserRequired | backend/auth/dependencies.py:19-22 | the user passes, unchanged, exactly when `is_approved` is truthy; otherwise the result is a 403 |
| ServerAuth.AdminTokenIff | backend/auth/dependencies.py:10-16 | a token reaches an admin endpoint exactly when its `role` claim is "admin"; a token with no role never does |
| ServerAuth.ApprovedTokenIff | backend/auth/dependencies.py:11-21 | a token passes the approval check exactly when its `is_approved` claim is truthy; with no such claim it never does |
| ServerAuth.ApprovalIsTruthiness | backend/auth/dependencies.py:20 | the approval check tests truthiness, so the string "false" passes and 0 does not |
| ServerAuth.GuardsIndependent | backend/auth/dependencies.py:14-22 | an admin need not be approved, and an approved user need not be an admin |
| Session.Startup | frontend/src/context/AuthContext.jsx:18-32 | a truthy admin token signs in as admin whatever the user token holds; otherwise a truthy user token signs in as user; otherwise the session is left as it was; loading ends |
| Session.Restart | frontend/src/context/AuthContext.jsx:14-32 | after a reload the storage is unchanged, loading is over, and the session is authenticated exactly when it has a role |
| Session.RestartIff | frontend/src/context/AuthContext.jsx:20-29 | after a reload the session is authenticated exactly when some token is non-empty, and it is admin exactly when the admin token is |
| Session.TokenKey | frontend/src/context/AuthContext.jsx:35-39 | the key written is `adminToken` exactly for the role 'admin' |
| Session.Login | frontend/src/context/AuthContext.jsx:34-42 | login writes only the key for its role, keeps every other key, and sets the role passed |
| Session.Logout | frontend/src/context/AuthContext.jsx:44-49 | logout removes both token keys, keeps every other key, and resets the session |
| Session.LoginSurvivesRestart | frontend/src/context/AuthContext.jsx:23-39 | from empty storage, a login with a non-empty token comes back after a reload with role 'admin' for 'admin' and 'user' for any other role |
| Session.StaleAdminTokenWins | frontend/src/context/AuthContext.jsx:23-39 | after an admin login, a user login and a reload come back as admin |
| Session.EmptyTokenForgotten | frontend/src/context/AuthContext.jsx:23-39 | a session started with an empty token does not survive a reload from empty storage |
| Session.LogoutThenRestart | frontend/src/context/AuthContext.jsx:44-49 | after logout a reload finds nobody signed in, and every other key is kept |
| Session.UseAuth | frontend/src/context/AuthContext.jsx:5-11 | `useAuth` throws outside a provider and returns the provider's value inside one |
| Routes.RequireAdmin | frontend/src/components/RequireAdmin.jsx:5-13 | the children render, unchanged, exactly for an authenticated admin; anyone else gets a replace-redirect to /login |
| Routes.ProtectedLoginRoute | frontend/src/App.jsx:25-38 | the children render exactly when nobody is signed in; an admin is sent to /admin-dashboard and any other role to /user-dashboard |
| Routes.Visit | frontend/src/App.jsx:45-74 | a visit shows nothing exactly when the path is empty or its key (trailing slashes dropped, ASCII letters lower-cased) is no route's key |
| Routes.VisitMatches | frontend/src/App.jsx:45-74 | in React Router's terms: no page exactly when no route matches the path case-insensitively up to trailing slashes, otherwise the element of a matching route |
| Routes.KeyOfPlain | frontend/src/App.jsx:47-73 | a path without capital letters or a trailing slash is its own key |
| Routes.TableKeys | frontend/src/App.jsx:47-73 | every route's key is its path as written, except "/" whose key is empty |
| Routes.VisitByKey | frontend/src/App.jsx:45-74 | two non-empty paths that differ only in letter case or trailing slashes reach the same element |
| Routes.CapitalLoginWithSlash | frontend/src/App.jsx:53-57 | "/Login/" reaches the login route |
| Routes.PathsUnique | frontend/src/App.jsx:47-73 | no two routes share a key, so at most one route matches a path |
| Routes.GuardsOfTable | frontend/src/App.jsx:53-73 | exactly /admin-dashboard and /sensor-stack-chart are wrapped in `RequireAdmin`, exactly /login in `ProtectedLoginRoute`, and every other route is open |
| Routes.UserDashboardOpen | frontend/src/App.jsx:58 | the user dashboard renders for every session |
| Routes.AdminDashboardForAdmin | frontend/src/App.jsx:65-72 | the admin dashboard renders for a signed-in admin |
| Routes.LoginSettles | frontend/src/App.jsx:25-57 | a visit to /login settles after at most one redirect, on the login page, the admin dashboard or the user dashboard depending on the session |
| Routes.SettlesWithinTwoHops | frontend/src/App.jsx:25-73 | from any listed path at most two redirects reach a rendered page, and a non-admin never reaches an admin-only page |
| Routes.LoadAsWritten | frontend/src/components/RequireAdmin.jsx:6-10 | as written, loading a page first renders under the not-yet-started session, so every admin page is sent through /login: an admin lands on the admin dashboard whichever admin page was loaded, a user on the user dashboard, a visitor on the login page; every other listed path ends where the started session sends it |
| Routes.AsWrittenReloadLosesChart | frontend/src/App.jsx:73 | as written, with an admin token stored, loading /sensor-stack-chart ends on the admin dashboard, while the started session alone and the corrected guard both show the chart |
| Routes.RequireAdminAfterLoad | frontend/src/components/RequireAdmin.jsx:5-13 | corrected: the guard renders nothing while the start-up check is pending and decides as written once it has run |
| Routes.AfterLoadAgrees | frontend/src/components/RequireAdmin.jsx:5-13 | once the start-up check has run, the corrected guard gives the same element as the written one on every path |
| Routes.NoRedirectBeforeStartup | frontend/src/context/AuthContext.jsx:14-16 | with the corrected guard, no path redirects under the initial state |
| Routes.LoadCorrectedIsSettle | frontend/src/context/AuthContext.jsx:18-32 | with the corrected guard, loading any path ends exactly where the started session sends it |
| AdminApi.Intercept | frontend/src/config/adminApi.js:8-12 | with a truthy admin token `Authorization` becomes `Bearer` plus the token; otherwise the headers are left as they were; nothing else in the request changes |
| AdminApi.InterceptCredential | frontend/src/config/adminApi.js:9-10 | the bearer credential received is exactly the stored admin token when it is non-empty |
| AdminApi.BearerToken | frontend/src/config/adminApi.js:10 | reading the credential back from a bearer header gives the token it was built from |
| AdminApi.AlertPathRoundTrip | frontend/src/config/adminApi.js:16-17 | a one-alert path names the alert it was built from, and no two alerts share a path |
| AdminApi.EndpointUrls | frontend/src/config/adminApi.js:3-5 | listing and creating use the collection URL under http://localhost:8000; updating and deleting use the alert's own URL under it |
| AdminApi.SessionCredentials | frontend/src/config/adminApi.js:8-12 | after an admin login with a non-empty token every admin request carries it, and after logout none carries a credential |
| AdminApi.UserLoginKeepsAdminCredential | frontend/src/config/adminApi.js:9-10 | a user login leaves the admin client sending any admin token stored earlier |
| Hotspots.FireCsvUrl | frontend/src/components/LiveHotspotsMap.jsx:8-9 | the URL starts with the FIRMS country-CSV root |
| Hotspots.UrlSegments | frontend/src/components/LiveHotspotsMap.jsx:8-9 | the URL is the FIRMS country-CSV root followed by exactly four segments: the key, the sensor (MODIS_NRT when omitted), NPL, and the days as a decimal numeral (1 when omitted) |
| Hotspots.MakeRecord | frontend/src/components/LiveHotspotsMap.jsx:88-89 | a record's keys are the headers at the line's field positions, each holding the last field at a position with that header |
| Hotspots.ParseFeed | frontend/src/components/LiveHotspotsMap.jsx:85-90 | there is one record per line after the first line of the trimmed text, built from the header line and that line's fields |
| Hotspots.EmptyFeed | frontend/src/components/LiveHotspotsMap.jsx:85-87 | a feed of nothing but whitespace yields no records |
| Hotspots.ShortLineMissesKeys | frontend/src/components/LiveHotspotsMap.jsx:88-89 | a line with fewer fields than headers lacks a trailing header key, with no error, unless an earlier field has the same header |
| Hotspots.ExtraFieldsUndefined | frontend/src/components/LiveHotspotsMap.jsx:89 | fields beyond the headers land on the key "undefined", and the last one wins |
| Hotspots.DuplicateHeaderLaterWins | frontend/src/components/LiveHotspotsMap.jsx:89 | with a duplicate header name, the later column wins |
| Hotspots.QuotedCommaSplits | frontend/src/components/LiveHotspotsMap.jsx:88 | a comma inside quotes still splits the field |
| Hotspots.CarriageReturnStays | frontend/src/components/LiveHotspotsMap.jsx:85-88 | only the outer whitespace is trimmed, so a CRLF line keeps its '\r' in its last field |
| Text.JoinSplit | frontend/src/components/LiveHotspotsMap.jsx:85-88 | joining the pieces of a split restores the string |
| Text.TrimIsInfix | frontend/src/components/LiveHotspotsMap.jsx:85 | trimming removes only leading and trailing whitespace and keeps the rest as it was |
| ErrorText.OnlyBodyMatters | frontend/src/pages/ForgotPassword.jsx:34-44 | the text shown depends only on the response body, and with no response at all it is the page's default |
| ErrorText.DetailWins | frontend/src/pages/ForgotPassword.jsx:36-37 | a truthy `detail` is shown whatever `message` the body also carries |
| ErrorText.MessageWithoutDetail | frontend/src/pages/ForgotPassword.jsx:38-39 | without a truthy `detail`, a truthy `message` is shown |
| ErrorText.EmptyErrorIff | frontend/src/pages/ResetPassword.jsx:87-95 | the text shown is empty exactly when the error body is the empty string |
| ErrorText.BodyShapes | frontend/src/pages/ResetPassword.jsx:117-125 | a plain-text body is shown as it is, and an object body without `detail` or `message` gives the default |
| ResetPassword.DigitsOnly | frontend/src/pages/ResetPassword.jsx:42 | the result holds only digits and is no longer than the input, and an all-digit input is kept as it is |
| ResetPassword.DigitsOnlyKeepsDigits | frontend/src/pages/ResetPassword.jsx:42 | a character is in the result exactly when it is a digit of the input, the filter distributes over concatenation, and one character is kept exactly when it is a digit |
| ResetPassword.HandleOtpChange | frontend/src/pages/ResetPassword.jsx:41-46 | the filtered digits replace the OTP when there are at most six of them; otherwise the OTP stays as it was |
| ResetPassword.OtpAlwaysValid | frontend/src/pages/ResetPassword.jsx:41-46 | whatever is typed, the OTP holds at most six digits |
| ResetPassword.Validate | frontend/src/pages/ResetPassword.jsx:51-64 | the checks run in order (OTP length 6, then password length at least 6, then matching passwords), and the first failure's message is reported |
| ResetPassword.Submit | frontend/src/pages/ResetPassword.jsx:48-75 | a failed check sets its message and sends nothing; otherwise loading starts, error and message are cleared, and the reset request is sent |
| ResetPassword.SubmitSendsOnlyValid | frontend/src/pages/ResetPassword.jsx:51-68 | a request is sent exactly when every check passes, and it carries the email, the six-digit OTP and the checked password |
| ResetPassword.ResetSettled | frontend/src/pages/ResetPassword.jsx:70-100 | success shows the server's message, removes the stored email and schedules /login; failure shows the extracted error text and stores and schedules nothing; loading ends either way |
| ResetPassword.StoredEmailRemovedOnlyOnSuccess | frontend/src/pages/ResetPassword.jsx:78 | only a successful reset removes `resetPasswordEmail`, and it removes nothing else |
| ResetPassword.ResendSettled | frontend/src/pages/ResetPassword.jsx:107-130 | a successful resend restarts the countdown at 60 seconds; a failure shows the error text |
| ResetPassword.Tick | frontend/src/pages/ResetPassword.jsx:33-39 | each second a positive countdown drops by one, and a countdown at zero or below stays as it is |
| ResetPassword.TicksCountDown | frontend/src/pages/ResetPassword.jsx:33-39 | after `n` seconds the countdown stands at `c - n`, but never below zero |
| ResetPassword.ResendLockout | frontend/src/pages/ResetPassword.jsx:113-231 | after a successful resend the resend button stays disabled for exactly 60 seconds |
| ResetPassword.EnabledSubmitPassesOtpCheck | frontend/src/pages/ResetPassword.jsx:208 | an enabled submit button means the OTP check passes, though the password checks can still fail |
| ResetPassword.ChooseEmail | frontend/src/pages/ResetPassword.jsx:18-31 | a non-empty query parameter wins, then a non-empty stored email; with neither the page goes to /forgot-password |
| ResetPassword.ChooseEmailIff | frontend/src/pages/ResetPassword.jsx:20-30 | the stored email is used only without a usable parameter, and the page redirects exactly when neither source holds an email |
| Query.DecodeEncode | frontend/src/pages/ResetPassword.jsx:20-21 | percent-decoding an `encodeURIComponent` encoding gives the ASCII string back |
| Query.SinglePairGet | frontend/src/pages/ResetPassword.jsx:20-21 | `searchParams.get` on a query of one pair whose value holds no '&' returns the form-decoded value |
| Query.FirstPairWins | frontend/src/pages/ResetPassword.jsx:20-21 | the first pair with the name wins, whatever follows the '&' that ends it |
| Query.PlusBecomesSpace | frontend/src/pages/ResetPassword.jsx:20-21 | form decoding turns a '+' between two pieces without '+' or '%' into a space and keeps the pieces |
| ForgotPassword.LinkSearch | frontend/src/pages/ForgotPassword.jsx:29 | the search part of `/reset-password?email=` followed by a value without '#' is '?', `email`, '=' and that value |
| ForgotPassword.LinkParam | frontend/src/pages/ForgotPassword.jsx:29 | the reset page reads the form-decoded value back from such a link when the value holds neither '#' nor '&' |
| ForgotPassword.Submit | frontend/src/pages/ForgotPassword.jsx:12-16 | submitting starts loading and clears error and message |
| ForgotPassword.SubmitLocksUntilSettled | frontend/src/pages/ForgotPassword.jsx:12-81 | a submit disables the button until the request settles, and once it settles the button is disabled only when the email field is empty |
| ForgotPassword.EditEmail | frontend/src/pages/ForgotPassword.jsx:63-67 | typing sets the email field and nothing else, also while a request is pending |
| ForgotPassword.SettleWith | frontend/src/pages/ForgotPassword.jsx:18-47 | success shows the message, stores the address captured at Submit under `resetPasswordEmail` and schedules the given link; failure shows the error text and stores nothing; loading ends either way and the email field keeps what it holds when the answer arrives |
| ForgotPassword.EditWhilePendingKeepsSent | frontend/src/pages/ForgotPassword.jsx:12-29 | editing the field during the request changes neither the stored address nor the link: both use the submitted address, while the field shows the new text |
| ForgotPassword.SettleAsWritten | frontend/src/pages/ForgotPassword.jsx:18-47 | as written, a navigation is scheduled exactly on success, to `/reset-password?email=` followed by the raw submitted email, and only success stores that email |
| ForgotPassword.AsWrittenForgotThenResetLosesPlus | frontend/src/pages/ForgotPassword.jsx:25-29 | as written, after a successful request for "a+b@x.io" the storage holds the right address but the reset page opens with "a b@x.io" |
| ForgotPassword.Settle | frontend/src/pages/ForgotPassword.jsx:18-47 | corrected: a navigation is scheduled exactly on success, to `/reset-password?email=` followed by the encoded submitted email, and only success stores that email |
| ForgotPassword.ResetLinkAsWritten | frontend/src/pages/ForgotPassword.jsx:29 | as written, the link puts the raw email after `?email=` |
| ForgotPassword.AsWrittenPlusBecomesSpace | frontend/src/pages/ForgotPassword.jsx:29 | as written, the reset page reads "a+b@x.io" back as "a b@x.io" |
| ForgotPassword.AsWrittenCutAtAmpersand | frontend/src/pages/ForgotPassword.jsx:29 | as written, the part of an address after an '&' is lost |
| ForgotPassword.AsWrittenAmpersandCuts | frontend/src/pages/ForgotPassword.jsx:29 | as written, the reset page reads "a&b@x.io" back as "a" |
| ForgotPassword.AsWrittenResetPageUsesWrongEmail | frontend/src/pages/ForgotPassword.jsx:25-29 | the mangled query parameter wins over the correct stored email |
| ForgotPassword.ResetLink | frontend/src/pages/ForgotPassword.jsx:29 | the corrected link puts the encoded email after `?email=` |
| ForgotPassword.ResetLinkRoundTrip | frontend/src/pages/ForgotPassword.jsx:29 | with the corrected link the reset page reads back exactly the submitted email |
| ForgotPassword.ForgotThenResetKeepsEmail | frontend/src/pages/ForgotPassword.jsx:23-29 | after a successful request, the reset page opened from the link uses exactly the submitted address |
| Alerts.WithoutId | frontend/src/pages/AlertsManagement.jsx:46 | after removal no alert has the id, and the list does not grow |
| Alerts.WithoutIdMembers | frontend/src/pages/AlertsManagement.jsx:46 | an alert remains exactly when it was in the list and has another id |
| Alerts.WithoutIdCount | frontend/src/pages/AlertsManagement.jsx:46 | the list shrinks by exactly the number of alerts carrying the id |
| Alerts.WithoutIdStable | frontend/src/pages/AlertsManagement.jsx:46 | removing twice removes nothing more, and removing an absent id changes nothing |
| Alerts.WithoutIdAppend | frontend/src/pages/AlertsManagement.jsx:46 | removal from two joined lists removes from each part, so the remaining alerts keep their order |
| Alerts.WithoutUniqueId | frontend/src/pages/AdminDashboard.jsx:58 | when only the alert at `j` has its id, removal takes out position `j` and nothing else |
| AlertsManagement.FetchSettled | frontend/src/pages/AlertsManagement.jsx:21-34 | a fetched list replaces the alerts; a failure keeps them and sets the fetch error; loading ends either way |
| AlertsManagement.LoadingUntilFetched | frontend/src/pages/AlertsManagement.jsx:12-33 | the page starts loading, and it stops loading once the fetch settles |
| AlertsManagement.DeleteAlert | frontend/src/pages/AlertsManagement.jsx:36-51 | a declined confirmation changes nothing; a successful delete removes the id's alerts; a failed one keeps the list and sets the delete error |
| AlertsManagement.DeleteRemovesExactly | frontend/src/pages/AlertsManagement.jsx:37-46 | after a confirmed, successful delete an alert remains exactly when it was listed with another id, the count drops by the number of alerts with the id, and deleting again changes nothing |
| AlertsManagement.UpdateList | frontend/src/pages/AlertsManagement.jsx:60-62 | the length is kept, alerts with other ids are unchanged, and a matching alert becomes its fields overridden by the update |
| AlertsManagement.UpdateAlert | frontend/src/pages/AlertsManagement.jsx:53-68 | success applies the update and closes the edit row; failure keeps the list and the edit row and sets the update error |
| AlertsManagement.UpdateFields | frontend/src/pages/AlertsManagement.jsx:61 | an updated alert reads the new value for every key in the update and its old value for every other key |
| AlertsManagement.UpdateIdempotent | frontend/src/pages/AlertsManagement.jsx:60-62 | applying the same update twice changes nothing more, provided the update does not change the id |
| AlertsManagement.StartEditing | frontend/src/pages/AlertsManagement.jsx:341 | the edit row opens on the alert and the list is unchanged |
| AlertsManagement.EditField | frontend/src/pages/AlertsManagement.jsx:243-277 | typing sets one field of the edited copy and keeps its other fields and the list |
| AlertsManagement.CancelEditing | frontend/src/pages/AlertsManagement.jsx:290 | Cancel closes the edit row and changes nothing else |
| AlertsManagement.EditThenSave | frontend/src/pages/AlertsManagement.jsx:232-290 | opening an alert, changing one field and saving replaces that alert by itself with that one field changed |
| AlertsManagement.RiskColor | frontend/src/pages/AlertsManagement.jsx:83-90 | the risk colour is one of the four palette colours |
| AlertsManagement.StatusColor | frontend/src/pages/AlertsManagement.jsx:92-99 | the status colour is green, grey or red |
| AlertsManagement.PaletteDistinct | frontend/src/pages/AlertsManagement.jsx:85-88 | the four colours are pairwise different |
| AlertsManagement.RiskColorIff | frontend/src/pages/AlertsManagement.jsx:83-90 | High, Moderate and Low each get their own colour, and exactly the other values get grey |
| AlertsManagement.StatusColorIff | frontend/src/pages/AlertsManagement.jsx:92-99 | active is green, cancelled is red, and exactly the other values (expired included) get grey |
| AlertsManagement.CountWith | frontend/src/pages/AlertsManagement.jsx:154-166 | a filtered count never exceeds the list length |
| AlertsManagement.RiskLevelsExclusive | frontend/src/pages/AlertsManagement.jsx:160-166 | no alert counts as both High and Moderate |
| AlertsManagement.StatsOf | frontend/src/pages/AlertsManagement.jsx:147-170 | the total is the list length, and the active, High and Moderate counts are each at most the total |
| AlertsManagement.StatsRiskBound | frontend/src/pages/AlertsManagement.jsx:159-168 | the High and Moderate counts together never exceed the total |
| AlertsManagement.StatsAppend | frontend/src/pages/AlertsManagement.jsx:147-170 | every statistic of two joined lists is the sum of the two lists' statistics |
| AdminDashboard.DraftBody | frontend/src/pages/AdminDashboard.jsx:16 | the body sent holds exactly the draft's title and message |
| AdminDashboard.HandleCreate | frontend/src/pages/AdminDashboard.jsx:41-52 | an empty title or message sends nothing and changes nothing; success appends the server's alert and clears the form; failure keeps the list and the draft |
| AdminDashboard.CreateSendsOnlyComplete | frontend/src/pages/AdminDashboard.jsx:42-47 | a request is sent exactly when both fields are filled; it goes to the collection URL with that title and message, and the created alert is appended last |
| AdminDashboard.HandleDelete | frontend/src/pages/AdminDashboard.jsx:54-63 | a declined confirmation does nothing; success removes the id's alerts after a DELETE to the alert's URL; failure keeps the list |
| AdminDashboard.DeleteKeepsOthers | frontend/src/pages/AdminDashboard.jsx:58 | a successful delete keeps exactly the alerts with another id, in their order |
| AdminDashboard.StartEdit | frontend/src/pages/AdminDashboard.jsx:65-68 | the edit index becomes `i` and the edited copy holds the fields of `alerts[i]` |
| AdminDashboard.CancelEdit | frontend/src/pages/AdminDashboard.jsx:69-72 | the edit index is cleared and the edited copy is emptied |
| AdminDashboard.EditField | frontend/src/pages/AdminDashboard.jsx:194-210 | typing sets one field of the edited copy and keeps its other fields |
| AdminDashboard.StartThenCancel | frontend/src/pages/AdminDashboard.jsx:65-72 | opening and closing an edit row without saving leaves the dashboard as a closed row leaves it |
| AdminDashboard.EditBody | frontend/src/pages/AdminDashboard.jsx:75-78 | the update payload holds only the edited title and message |
| AdminDashboard.SaveEdit | frontend/src/pages/AdminDashboard.jsx:73-87 | success replaces the alert at the edit index by the server's alert and closes the row; failure keeps everything |
| AdminDashboard.SaveReplacesAtIndex | frontend/src/pages/AdminDashboard.jsx:79-82 | a successful save keeps the list length, changes only the edited position and clears the edit state |
| AdminDashboard.EditRowRoundTrip | frontend/src/pages/AdminDashboard.jsx:65-87 | starting an edit on a row, changing the title and pressing that row's Save (which passes the row's own id, line 215) sends a PUT to that alert's own address, whose id reads back from the URL, carrying the new title with the old message; the answer lands at that row |
| AdminDashboard.DeleteAboveShiftsEditTarget | frontend/src/pages/AdminDashboard.jsx:58-80 | the edit row follows a position, not an alert: after an alert above it is deleted, the row's Save sends the old row's edited title and message in a PUT to the next alert down and puts the answer in its place |
| AdminDashboard.SignOutAsWritten | frontend/src/pages/AdminDashboard.jsx:90-93 | as written, logout removes the admin token and loads /admin-login |
| AdminDashboard.AsWrittenSignOutLandsNowhere | frontend/src/pages/AdminDashboard.jsx:92 | as written, the page loaded after logout matches no route, so the route outlet stays empty below the navigation bar |
| AdminDashboard.SignOut | frontend/src/pages/AdminDashboard.jsx:90-93 | the corrected logout removes the admin token and loads /login |
| AdminDashboard.SignOutLandsOnLogin | frontend/src/pages/AdminDashboard.jsx:90-93 | after the corrected logout the page load, first render included, ends on the login page, or on the user dashboard when a user token remains, and never on an admin page |

## Left out

- Randomness: `np.random.choice` for feature subsets and bootstrap indices
  is an input (a feature draw per node path and an index list per tree). The
  model proves properties for every such input, not for the distribution.
- Floating point: impurity, gain, thresholds and vote shares are exact reals.
  Python float rounding could break a gain tie that the model treats as
  equal.
- RandomForest.Predict, RandomForest.PredictProba: a forest with no trees
  makes Python raise (`most_common(1)[0]` on an empty counter, a division by
  `len(row) == 0`). The model returns `None` instead of modelling the
  exception type.
- The trained model that the scan loads with joblib, the weather and
  elevation services, and the districts file are not modelled. Each
  district's probe result ("High", another risk, or raised) is an input.
  `print` is left out.
- I/O in the pages is not modelled: axios and fetch, `setTimeout`,
  `window.confirm`, `alert()`, toasts and `console.error`. Each request is an
  outcome input, and each confirmation is a boolean input.
- JWT decoding and signature checks (`jose`, the secret key) are not part of
  this model. `get_current_user` starts from the decoded claims, and a bad
  token's 401 is not modelled.
- All rendering is left out: the JSX markup, the maps, the charts, the
  AdminDashboard messages view, and the AlertsManagement map toggle and
  `formatDate`.
- AlertsManagement's `handleCreateAlert` (lines 70-81) is left out because
  nothing on the page calls it.
- AlertsManagement.FetchSettled: the fetched body is taken to be a list of
  alerts. A non-array body would break the page's `.filter` calls.
- AdminDashboard.HandleDelete: alert ids are strings in this page's model.
  That matches the server's string `id`.
- AdminDashboard.SaveEdit: it requires an open edit row on a listed
  position, because Save is rendered only inside that row. A stale index
  past the end of the list (`updated[editIndex] = …` would grow the array)
  is not modelled. The page also uses the `editIndex` captured at the click
  (AdminDashboard.jsx line 80), so a Cancel while the save is pending leaves
  the model's open-row precondition unmet: the page still writes the answer
  at the old index, and the model does not cover that.
- Js.Merge and object spread: a non-object operand spreads as `{}`. The model
  does not turn strings or arrays into index-keyed entries.
- Query.PercentDecode: escapes of bytes from 0x80 up stay as text instead of
  being decoded as UTF-8. Only ASCII addresses reach the link, because the
  `type="email"` field rejects everything else.
- Query.SearchOf: react-router's path parsing is modelled. Browser URL
  normalisation is not.
- Routes.Visit: React Router's percent-decoding of the path, a `basename`,
  and dynamic or splat segments are not modelled (App.jsx uses none of the
  last three). Matching is case-insensitive up to trailing slashes, as for
  routes without `caseSensitive`.
- AlertsManagement.DeleteAlert: one request at a time is modelled. The page
  filters the `alerts` captured at the click (AlertsManagement.jsx line 46)
  and nothing disables the button while a request is pending, so two
  overlapping deletes can bring the first deleted alert back. The model
  applies each outcome to the page it is given.
- AlertsManagement.UpdateAlert: one request at a time is modelled. The page
  maps over the `alerts` captured at the click (AlertsManagement.jsx line
  60), so an overlapping request's change can be undone.
- AdminDashboard.HandleCreate: one request at a time is modelled. The page
  appends to the `alerts` captured at the click (AdminDashboard.jsx line 46),
  so an overlapping request's change can be undone.
- AdminDashboard.HandleDelete: one request at a time is modelled. The page
  filters the `alerts` captured at the click (AdminDashboard.jsx line 58),
  so two overlapping deletes can bring the first deleted alert back.
- AdminDashboard.SaveEdit: one request at a time is modelled. The page copies
  the `alerts` captured at the click (AdminDashboard.jsx line 79), so an
  overlapping request's change can be undone.
- DecisionTree.BuildTree: every node's feature draw must be valid, which
  needs a feature count no larger than the row width. `fit` always passes
  `int(sqrt(width))` (custom_rf.py lines 110-119), so this holds for every
  call in the program. A direct `build_tree` call with a larger
  `num_features` is not modelled, even one that would stop before the draw
  at line 65.
- ResetPassword.Tick: the countdown is a natural number of seconds. The
  interval timer itself and React's effect scheduling are not modelled.
- Strings are sequences of characters. JavaScript's UTF-16 code units and
  Python's code points are not distinguished.
- The pages' loading spinners and navigation timing are left out. Only the
  resulting state and the navigation target are modelled.

## Findings

| source | as written | input that shows it | evidently intended | confidence | as-written member | corrected member |
|---|---|---|---|---|---|---|
| backend/services/scan.py:51-57 | builds `FireAlert(district=…, risk_level=…, location=…, reason=…)`, but `FireAlert` requires `title`, `message`, `latitude`, `longitude`, `probability`, `weather_data` and `precautions` | any district list in which one district is probed "High" | the scan builds complete alerts and returns the selected districts, as `scan_nepal_only` does | high; not executed | Scan.ScanAndGenerateAlertsAsWritten (Scan.AsWrittenFailsOnAnyHighRisk, Scan.AsWrittenCounterexample) | Scan.ScanAndGenerateAlerts |
| frontend/src/pages/ForgotPassword.jsx:29 | navigates to `/reset-password?email=${email}` without encoding, and the reset page form-decodes the parameter | the address "a+b@x.io" reads back as "a b@x.io"; "a&b@x.io" reads back as "a" | `encodeURIComponent(email)` in the link, so the reset page reads back the submitted address | high; not executed | ForgotPassword.ResetLinkAsWritten, ForgotPassword.SettleAsWritten (ForgotPassword.AsWrittenPlusBecomesSpace, ForgotPassword.AsWrittenAmpersandCuts, ForgotPassword.AsWrittenResetPageUsesWrongEmail, ForgotPassword.AsWrittenForgotThenResetLosesPlus) | ForgotPassword.ResetLink, ForgotPassword.Settle (ForgotPassword.ResetLinkRoundTrip, ForgotPassword.ForgotThenResetKeepsEmail) |
| frontend/src/pages/AdminDashboard.jsx:90-93 | logout sends the browser to "/admin-login", a path the route table in App.jsx does not list | any storage; after logout the route outlet is empty (only the navigation bar, drawn outside the routes, shows) | the logout lands on the routed login page | medium; not executed | AdminDashboard.SignOutAsWritten (AdminDashboard.AsWrittenSignOutLandsNowhere) | AdminDashboard.SignOut (AdminDashboard.SignOutLandsOnLogin) |
| frontend/src/components/RequireAdmin.jsx:8 | the guard redirects whenever the session is not an authenticated admin, including on the first render of a page load, before the provider's start-up check has read the stored token (`isLoading` is provided but never read); the `<Navigate>` it mounts moves the address to /login whatever the check then finds | storage holding a non-empty `adminToken` and a reload of /sensor-stack-chart: the page ends on the admin dashboard, not the chart | the guard waits while `isLoading` is true, so a signed-in admin stays on the admin page loaded | high; not executed | Routes.Load (Routes.LoadAsWritten, Routes.AsWrittenReloadLosesChart) | Routes.RequireAdminAfterLoad, Routes.LoadCorrected (Routes.AfterLoadAgrees, Routes.NoRedirectBeforeStartup, Routes.LoadCorrectedIsSettle) |
