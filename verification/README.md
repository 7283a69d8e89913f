# KitchenIntel front end — a Dafny model of its state logic

KitchenIntel's web front end is a React application for a restaurant. It has a
chat assistant over a WebSocket, order and menu managers backed by a REST API,
a dashboard with in-memory order and menu lists, a sales dashboard, a route
guard, a sidebar and a not-found page. Most of it is rendering and HTTP
plumbing. Threaded through the components is a body of pure state-transition
logic: `setX(prev => …)` updaters, handlers and derived values.

This project lifts that logic out as Dafny functions from the old state (and
the event's inputs) to the new state, and proves what each one promises.
Clocks, storage reads, widths and HTTP outcomes enter as parameters.

Modules, following the source files:

| module | models |
|---|---|
| `Common` | `Option`, decimal numerals, `trim`, `toLowerCase`, `includes`, `parseInt`, `filter`, `find` |
| `Sorting` | `Array.prototype.sort` with a numeric key comparator, stable |
| `ChatMessages` | `useMessages.ts`: the message log, the pinned welcome message, storage |
| `ChatSocket` | `useWebsocket.ts`: the connection lifecycle over every socket created (a replaced socket still fires events), inbound frames, sending |
| `Pagination` | page window, page changes, paginated responses, "Showing x to y", delete step-back |
| `PriceFormat` | the menu form's price grouping, `parseFloat`, the price rule, create vs update parsing |
| `Catalog` | `getMenuPrice` / `getMenuTitle` |
| `OrderPages` | the order form schema, the edit form's running total, `calculateOrderTotal` |
| `MenuPages` | category loading and naming, the menu form schema |
| `CreateOrder` | `create-order-modal.tsx`: rows, quantity input, total, submit |
| `RecordIds` | ids given to new dashboard records, and the corrected choice |
| `DashboardOrders` | the dashboard order list: filter, newest first, unpaid tab, create/update/delete/status |
| `DashboardMenus` | the dashboard menu list: filter, category name, create/update/delete |
| `RestaurantDashboard` | the sales dashboard: current insight, the four chart series, totals, tabs, fetch |
| `AuthGate` | `auth-provider.tsx`: redirect and render decisions |
| `SidebarContext` | `SidebarContext.tsx`: defaults, stored state, toggle, storage events |
| `SidebarNav` | `sidebar.tsx`: screen check, persistence, toggle, overlay, active nav item |
| `NotFound` | `not-found.tsx`: the login check and the link target |

## Model

| member | source | states |
|---|---|---|
| Common.ToLower | src/components/dashboard/order-management.tsx:213-214 | Keeps the length, leaves no upper-case ASCII letter, maps A-Z to a-z and leaves every other character alone |
| Common.ToLowerIdempotent | src/components/dashboard/order-management.tsx:213-214 | Lower-casing twice equals lower-casing once |
| Common.Includes | src/components/dashboard/order-management.tsx:213-214 | A text includes itself, and never a longer text |
| Common.IncludesEmpty | src/components/dashboard/order-management.tsx:213-214 | Every text includes the empty string |
| Common.Trim | src/components/order/create-order-modal.tsx:148 | The result is a slice of the input with only white space cut from either end, and neither starts nor ends with white space |
| Common.ParseInt | src/components/order/create-order-modal.tsx:340 | Nothing is read iff no digit follows the white space and sign; otherwise the result is the value of the longest digit run after the white space and optional sign, negated iff the sign is a minus; a digit string reads as its value |
| Common.ParseIntSignedPrefix | src/components/order/create-order-modal.tsx:340 | White space, an optional sign, digits and then anything not starting with a digit read as the digits' value, negated iff the sign is a minus |
| Common.ParseIntReadsPrefix | src/components/order/create-order-modal.tsx:340 | A digit string followed by anything not starting with a digit reads as the digit string's value |
| Common.Filter | src/components/dashboard/order-management.tsx:211-216 | Keeps exactly the elements that pass, in order, each as often as before; a list whose elements all pass is unchanged |
| Common.FilterAppend | src/components/dashboard/order-management.tsx:211-216 | Filtering two lists laid end to end filters each in turn |
| Common.FindFirst | src/components/order/create-order-modal.tsx:108 | Finds nothing iff no element passes, and otherwise the first element that does |
| Common.Utf16Length | src/components/order/order-management.tsx:84 | The UTF-16 length lies between the number of characters and twice it, and equals it when no character is above U+FFFF |
| Sorting.SortBy | src/components/dashboard/restaurant-dashboard.tsx:228-232 | The same elements, each as often, in ascending key order |
| Sorting.SortByStable | src/components/dashboard/restaurant-dashboard.tsx:228-232 | Sorting is stable: the elements with any one key come out in the order they went in (also for the order list's newest-first sort) |
| Sorting.SortBySorted | src/components/dashboard/restaurant-dashboard.tsx:228-232 | Sorting a sequence already in key order leaves it as it is |
| Sorting.SumBySortBy | src/components/dashboard/restaurant-dashboard.tsx:355 | Sorting does not change a sum |
| Sorting.SumByAppend | src/components/dashboard/restaurant-dashboard.tsx:355 | A sum over two sequences laid end to end is the sum of their sums |
| ChatMessages.PinnedIffAtMostOneFirst | src/components/chatbot/hook/useMessages.ts:47-66 | The pinned-welcome invariant (no welcome-id entry after index 0) holds iff at most one entry carries the welcome id and any such entry is first |
| ChatMessages.FindWelcome | src/components/chatbot/hook/useMessages.ts:76-78 | Finds a system welcome exactly when one is present, and returns the first one in log order |
| ChatMessages.Receive | src/components/chatbot/hook/useMessages.ts:69-103 | A received message or history keeps an existing welcome, and a single message that is not a second welcome appears in the log |
| ChatMessages.WithoutWelcomeId | src/components/chatbot/hook/useMessages.ts:82 | The kept messages are the incoming ones without the welcome id, in order, each as often as before |
| ChatMessages.MergeHistory | src/components/chatbot/hook/useMessages.ts:69-87 | A received history keeps our welcome in front and drops the history's welcome-id entries; with no welcome the history is adopted as is |
| ChatMessages.MergeSingle | src/components/chatbot/hook/useMessages.ts:88-101 | A system welcome goes first only when no entry has the welcome id (or the log is empty); any other message is appended |
| ChatMessages.ReceivePreservesPinned | src/components/chatbot/hook/useMessages.ts:69-103 | Receiving preserves the pinned-welcome invariant, provided an inbound single message carrying the welcome id is a system message and a history received while no welcome is present is itself pinned; a user message with the welcome id is appended and breaks the invariant |
| ChatMessages.EnsureWelcome | src/components/chatbot/hook/useMessages.ts:47-66 | Unless the flag is set or a system welcome exists (then nothing changes), the log becomes the fresh welcome followed by the old log without welcome-id entries, the flag is set, and exactly one entry carries the welcome id |
| ChatMessages.AddUserMessage | src/components/chatbot/hook/useMessages.ts:105-116 | Appends one user message with the fresh id and returns it; earlier messages are unchanged |
| ChatMessages.AddUserMessageIsAppend | src/components/chatbot/hook/useMessages.ts:100-114 | A typed message is merged exactly as an inbound non-welcome message |
| ChatMessages.Reset | src/components/chatbot/hook/useMessages.ts:118-123 | Empties the log, clears the flag and removes the stored copy, leaving other keys alone |
| ChatMessages.ResetThenWelcome | src/components/chatbot/hook/useMessages.ts:47-123 | After a reset the welcome effect leaves exactly the fresh welcome |
| ChatMessages.Persist | src/components/chatbot/hook/useMessages.ts:40-45 | A non-empty log is written under the key; an empty one leaves storage unchanged |
| ChatMessages.Load | src/components/chatbot/hook/useMessages.ts:12-38 | A stored non-empty array replaces the log and sets the flag iff it holds a system welcome; missing, unreadable, non-array or empty values change nothing |
| ChatMessages.PersistThenLoad | src/components/chatbot/hook/useMessages.ts:12-45 | A non-empty log written under the key is loaded back unchanged |
| ChatMessages.PersistOtherKey | src/components/chatbot/hook/useMessages.ts:40-45 | Writing under one key does not change what loads under another |
| ChatSocket.Cleanup | src/components/chatbot/hook/useWebsocket.ts:78-82 | The cleanup closes the socket its own effect run created, and only if that socket is open; one still connecting stays as it is; the connected flag is untouched |
| ChatSocket.Connect | src/components/chatbot/hook/useWebsocket.ts:20-23 | After the previous cleanup, a new connecting socket becomes the hook's socket iff the session id is non-empty; an empty id keeps the old socket |
| ChatSocket.OnOpen | src/components/chatbot/hook/useWebsocket.ts:25-38 | Any socket's opening marks that socket open and the hook connected, and delivers the greeting with id '1', system role and the fixed content; other sockets are unchanged |
| ChatSocket.OnClose | src/components/chatbot/hook/useWebsocket.ts:66-69 | Any socket's close marks that socket closed and clears the connected flag; the hook's socket reference and other sockets are unchanged |
| ChatSocket.OnError | src/components/chatbot/hook/useWebsocket.ts:71-74 | Any socket's error clears the connected flag and leaves every socket as it was |
| ChatSocket.TranslateRole | src/components/chatbot/hook/useWebsocket.ts:47 | A history entry is a system message iff its role is 'assistant' |
| ChatSocket.TranslateHistory | src/components/chatbot/hook/useWebsocket.ts:45-50 | One message per entry, in order; message i has the i-th clock reading followed by i as id, the i-th formatted date as time stamp, the system role iff the entry's role is `assistant`, and the entry's content |
| ChatSocket.HistoryIdsDistinct | src/components/chatbot/hook/useWebsocket.ts:46 | The ids of one translated history are pairwise distinct when the clock readings taken for it have the same number of digits |
| ChatSocket.OnFrame | src/components/chatbot/hook/useWebsocket.ts:40-64 | Nothing is delivered iff the message field is falsy or the frame is not JSON; text or another truthy value gives one system message with that content; an array gives a history of the same length whose entries carry the array's roles and contents in order |
| ChatSocket.TextFrameAppends | src/components/chatbot/hook/useWebsocket.ts:52-61 | A non-empty text frame whose id is not the welcome id is appended to the log as one system message |
| ChatSocket.HistoryFrameFollowsWelcome | src/components/chatbot/hook/useWebsocket.ts:43-51 | A history frame received after the welcome leaves the welcome first followed by the history's contents in order, when the welcome id is no longer than any clock reading taken for the frame |
| ChatSocket.HistoryAvoidsWelcomeId | src/components/chatbot/hook/useWebsocket.ts:45-50 | No translated history message is dropped as a second welcome when the welcome id is no longer than any clock reading taken for the frame |
| ChatSocket.SendMessage | src/components/chatbot/hook/useWebsocket.ts:86-90 | Sends (and returns true) iff the trimmed text is non-empty and the hook's current socket is open; the frame carries the untrimmed text |
| ChatSocket.SendAfterOpen | src/components/chatbot/hook/useWebsocket.ts:20-90 | After connecting with a session and the new socket opening, a message is sent iff it is not blank |
| ChatSocket.NoSendUnlessOpen | src/components/chatbot/hook/useWebsocket.ts:66-90 | Nothing is sent while the hook's socket is connecting or after that socket closes |
| ChatSocket.CloseConnection | src/components/chatbot/hook/useWebsocket.ts:92-96 | Closes the hook's socket (moves it to closing) iff it is open; otherwise nothing changes; other sockets and the connected flag are untouched |
| ChatSocket.CloseConnectionIsCleanup | src/components/chatbot/hook/useWebsocket.ts:78-96 | While the registered cleanup belongs to the hook's socket, closing the connection has the same effect on the sockets as that cleanup |
| ChatSocket.StaleCloseKeepsSending | src/components/chatbot/hook/useWebsocket.ts:66-90 | A late close of a socket the hook no longer holds clears the connected flag but changes nothing about sending |
| ChatSocket.ReplacedSocketClosesLate | src/components/chatbot/hook/useWebsocket.ts:20-90 | Session s1 opens, the session changes to s2 (cleanup starts closing s1), s2 opens; after s1's close event the flag says disconnected while visible text is still sent |
| ChatSocket.ConnectingSocketOutlivesSession | src/components/chatbot/hook/useWebsocket.ts:25-82 | A socket still connecting when the session changes is not closed; its later opening sets the connected flag and delivers another greeting while the hook's new socket still refuses sends |
| Pagination.Pages | src/components/order/order-management.tsx:621-623 | The run from lo to hi lists each page once in increasing order |
| Pagination.PageWindow | src/components/order/order-management.tsx:615-643 | With at least one page the window starts at page 1 and ends at the last page; every listed page exists; five or fewer pages show no ellipsis |
| Pagination.SmallWindow | src/components/order/order-management.tsx:619-623 | With at most five pages every page is listed, in order, with no ellipsis |
| Pagination.LargeWindowShape | src/components/order/order-management.tsx:624-643 | With more than five pages the window has 3 to 7 entries, starts at page 1, ends at the last page, and its page numbers increase |
| Pagination.LargeWindowListed | src/components/order/order-management.tsx:624-643 | A page is listed iff it is the first, the last, or within one of the current page |
| Pagination.LargeWindowGaps | src/components/order/order-management.tsx:629-640 | An ellipsis appears after page 1 iff current > 3 and before the last iff current < total - 2; each ellipsis hides at least one page, and listed neighbours are consecutive |
| Pagination.NeighboursConsecutive | src/components/order/order-management.tsx:629-640 | Two numbered buttons side by side in a large window are consecutive pages |
| Pagination.EllipsisHidesPages | src/components/order/order-management.tsx:629-640 | Every ellipsis of a large window stands between numbered buttons at least two pages apart |
| Pagination.ChangePage | src/components/order/order-management.tsx:206-210 | A page change fetches iff mounted and the page is within 1..total, and then fetches that page |
| Pagination.WindowPagesAccepted | src/components/menu/menu-management.tsx:179-183 | Every page button of the window is accepted by the page change |
| Pagination.ArrowsStayInRange | src/components/order/order-management.tsx:652-679 | "Previous" on page 1 and "Next" on the last page change nothing |
| Pagination.CeilDiv | src/components/order/order-management.tsx:183 | The page count is the least number of pages that hold all items |
| Pagination.ApplyResponse | src/components/order/order-management.tsx:173-199 | A bare array is one page of all items; a paginated body gives its count, ceil(count/size) pages and the requested page; anything else empties the list with one page |
| Pagination.NoPagesIffNoItems | src/components/menu/menu-management.tsx:128-143 | A paginated body reports zero pages iff its count is zero |
| Pagination.ShowingRange | src/components/order/order-management.tsx:686-690 | "Showing a to b" appears iff there are items; a is the page's first row and b is the smaller of its last row and the item count |
| Pagination.ShowingRangesTile | src/components/menu/menu-management.tsx:505-509 | On every existing page the range is non-empty and at most a page long, the next page's range starts right after it, and the last page's range ends at the item count |
| Pagination.PageAfterDelete | src/components/order/order-management.tsx:532 | The page steps back by one iff the deleted row was the only one and the page is not the first |
| Pagination.DeleteLandsOnExistingPage | src/components/menu/menu-management.tsx:425 | After deleting a row, the page fetched is at least 1 and still exists among the remaining items (page 1 when none remain) |
| Pagination.PagerIffMoreThanOnePage | src/components/menu/menu-management.tsx:847-849 | The pager is shown iff there are more items than fit on one page |
| PriceFormat.Group | src/components/menu/menu-management.tsx:573 | Inserting the thousands dots keeps the digits (removing the dots gives them back), groups them in threes after a lead group of 1 to 3, and adds (n-1)/3 dots |
| PriceFormat.OnChange | src/components/menu/menu-management.tsx:571-575 | The field shows a well-grouped string whose digits are exactly the digits typed |
| PriceFormat.OnBlur | src/components/menu/menu-management.tsx:577-580 | The stored value has no dot, and on a shown value of digits and dots it is exactly its digits |
| PriceFormat.BlurAfterChange | src/components/menu/menu-management.tsx:571-579 | Typing then leaving the field stores exactly the digits typed |
| PriceFormat.ChangeIdempotent | src/components/menu/menu-management.tsx:571-575 | Reformatting an already formatted value changes nothing |
| PriceFormat.DigitsOnlyIsRemoveDots | src/components/menu/menu-management.tsx:572-578 | On digits and dots, dropping non-digits and dropping dots agree |
| PriceFormat.Display | src/components/menu/menu-management.tsx:756 | The shown price is "Rp " followed by a well-grouped numeral |
| PriceFormat.DisplayReadsBack | src/components/menu/menu-management.tsx:756 | Removing the dots from the shown price gives digits whose value is the price |
| PriceFormat.ParseFloat | src/components/menu/menu-management.tsx:57 | NaN iff after white space and sign there is neither a digit nor a dot followed by a digit; otherwise the sign is read, the whole part is the longest digit run after it, and the fraction is the longest digit run after a dot that follows the whole part |
| PriceFormat.PriceValidDigits | src/components/menu/menu-management.tsx:57-59 | A digit string passes the price rule iff some digit is not 0 |
| PriceFormat.StoredPriceValid | src/components/menu/menu-management.tsx:571-579 | The stored value passes the price rule iff some typed digit is not 0 |
| PriceFormat.UpdatePrice | src/components/menu/menu-management.tsx:366 | Update never sends a fraction; a value whose non-dot characters are all digits is sent as that digit string read whole; a value without a dot is sent as create sends it |
| PriceFormat.CreatePrice | src/components/menu/menu-management.tsx:320 | Create reads a digit string whole, and a grouped value with a dot as its first group with the next three digits as a fraction |
| PriceFormat.CreateUpdateAgreeWithoutDot | src/components/menu/menu-management.tsx:320-366 | Without a dot in the value, create and update send the same price |
| PriceFormat.CreateUpdateDisagreeOnGrouped | src/components/menu/menu-management.tsx:320-366 | On a grouped value of four or more digits, create reads a number below 1000 while update reads the whole digit string, at least 1000 |
| PriceFormat.ParseGroupedLengths | src/components/menu/menu-management.tsx:320 | A grouped value of four or more digits reads as a number with at most three whole digits and exactly three fraction digits |
| PriceFormat.ReadsParts | src/components/menu/menu-management.tsx:57 | A value that starts with a digit reads as its leading digits and the digit run after the first dot |
| PriceFormat.DecimalValuePositive | src/components/menu/menu-management.tsx:57 | A digit string has a positive value iff one of its digits is not 0 |
| Catalog.FindMenu | src/components/order/order-management.tsx:455-461 | Finds a menu iff one has the id, and the one found has the id |
| Catalog.MenuPrice | src/components/order/order-management.tsx:460-463 | An unknown id is priced 0; a known one at the price of a menu with that id |
| Catalog.MenuTitle | src/components/order/order-management.tsx:454-457 | An unknown id is titled 'Unknown'; a known one by a menu with that id |
| Catalog.LookupReadsFirstMatch | src/components/dashboard/order-management.tsx:224-233 | With duplicate ids, the lookups read the first matching menu |
| Catalog.MenuPriceNonNegative | src/components/order/order-management.tsx:460-463 | Non-negative prices give non-negative lookups, including the 0 default |
| OrderPages.EditFormTotalIgnoresBlankRows | src/components/order/order-management.tsx:806-809 | A row without a chosen menu, or with an unknown menu, leaves the running total unchanged |
| OrderPages.ItemValid | src/components/order/order-management.tsx:77-80 | An item passes iff a menu is chosen and its quantity is at least 1 |
| OrderPages.OrderFormValid | src/components/order/order-management.tsx:83-87 | Passing needs a non-empty name, at least one item and every item valid; a 2-character name with at least one item, all valid, passes |
| OrderPages.OneEmojiNameIsLongEnough | src/components/order/order-management.tsx:84 | `min(2)` counts UTF-16 units: a one-emoji name passes and a one-letter name does not |
| OrderPages.EditFormTotalAppend | src/components/order/order-management.tsx:806-809 | The running total of two lists of rows is the sum of their totals |
| OrderPages.EditFormTotalIsPricedTotal | src/components/order/order-management.tsx:806-809 | When every row has a menu chosen, the running total equals the reference total |
| OrderPages.ValidFormShowsPricedTotal | src/components/order/order-management.tsx:77-87 | A form that passes the schema shows the reference total |
| OrderPages.ValidTotalNonNegative | src/components/dashboard/order-management.tsx:236-241 | With non-negative prices, a form that passes the schema has a non-negative total |
| MenuPages.ApplyCategories | src/components/menu/menu-management.tsx:200-230 | Categories are taken from `results` or the body when it is an array; otherwise the list is emptied and the error is the format, HTTP-status or network message |
| MenuPages.CategoriesOrError | src/components/menu/menu-management.tsx:204-228 | The page never holds categories and an error together |
| MenuPages.CategoryTitle | src/components/menu/menu-management.tsx:307-310 | An unlisted category is named '' |
| MenuPages.CategoryTitleOfListed | src/components/menu/menu-management.tsx:307-310 | A listed category is named by its first listing's title |
| MenuPages.MenuFormValidAfterTyping | src/components/menu/menu-management.tsx:54-63 | With the price typed and blurred, the form is valid iff the title has at least 3 UTF-16 code units, a category is chosen and some typed digit is not 0 |
| MenuPages.MenuFormValid | src/components/menu/menu-management.tsx:54-63 | Passing needs a title of at least 2 characters, a category and a valid price; a 3-character title with a category and a valid price passes |
| CreateOrder.Reset | src/components/order/create-order-modal.tsx:139-144 | The form returns to an empty name, UNPAID, one blank row with id 1 and quantity 1, and total 0 |
| CreateOrder.AddItem | src/components/order/create-order-modal.tsx:117-125 | Appends one blank row with the clock's id; earlier rows are unchanged |
| CreateOrder.RemoveItem | src/components/order/create-order-modal.tsx:127-131 | With one row nothing changes; otherwise exactly the rows with other ids remain, in order, each as often as before |
| CreateOrder.RemoveEmptiesIff | src/components/order/create-order-modal.tsx:127-131 | Removal empties the list iff there were at least two rows and all shared the id; with distinct ids a row always remains |
| CreateOrder.ApplyEdit | src/components/order/create-order-modal.tsx:135 | An edit sets one field and leaves the id and the other fields |
| CreateOrder.UpdateItem | src/components/order/create-order-modal.tsx:133-137 | Rows with the id get the edit; all others are unchanged |
| CreateOrder.UpdateKeepsRows | src/components/order/create-order-modal.tsx:133-137 | An edit keeps every row's id, and applying it twice equals applying it once |
| CreateOrder.UpdatesOfDifferentRowsCommute | src/components/order/create-order-modal.tsx:133-137 | Edits to rows with different ids commute |
| CreateOrder.QuantityInput | src/components/order/create-order-modal.tsx:340 | The quantity is never 0: an unreadable or zero input becomes 1, any other integer is kept |
| CreateOrder.QuantityInputExamples | src/components/order/create-order-modal.tsx:340 | A positive numeral is read as itself; "" and "0" become 1 |
| CreateOrder.QuantityInputNegative | src/components/order/create-order-modal.tsx:340 | A minus sign before digits of positive value gives that value negated as the quantity (the field's `min` does not stop it) |
| CreateOrder.QuantityInputSpaced | src/components/order/create-order-modal.tsx:340 | White space before digits of positive value is skipped and the digits' value is the quantity |
| CreateOrder.Total | src/components/order/create-order-modal.tsx:106-115 | With no priced row the total is 0, and with non-negative prices it is non-negative |
| CreateOrder.TotalAppend | src/components/order/create-order-modal.tsx:106-115 | The total of two lists of rows is the sum of their totals |
| CreateOrder.TotalAddsRow | src/components/order/create-order-modal.tsx:106-115 | Adding a row adds its price times quantity when its menu is found and its quantity positive, and nothing otherwise |
| CreateOrder.RowAmountNonNegative | src/components/order/create-order-modal.tsx:108-113 | With non-negative menu prices a row adds a non-negative amount |
| CreateOrder.TotalCountsSubmittedRows | src/components/order/create-order-modal.tsx:106-115 | When no menu has the empty id, the total counts exactly the rows that would be submitted |
| CreateOrder.Submit | src/components/order/create-order-modal.tsx:146-168 | A blank name is refused first; then a form with no row having a menu and a positive quantity; otherwise the trimmed name and the submittable rows are sent in order |
| CreateOrder.NothingSubmittable | src/components/order/create-order-modal.tsx:153-157 | The filtered rows are empty iff no row has both a menu and a positive quantity |
| CreateOrder.PayloadRowsSubmittable | src/components/order/create-order-modal.tsx:153-167 | Every sent row has a menu and a positive quantity, and its quantity survives the toString/parseInt round trip |
| CreateOrder.ResetCannotSubmit | src/components/order/create-order-modal.tsx:139-157 | A freshly reset form is refused for its missing name and totals 0 |
| CreateOrder.SendableEnablesButton | src/components/order/create-order-modal.tsx:392 | A form that would be sent has its button enabled when not loading |
| CreateOrder.ButtonEnabledButRefused | src/components/order/create-order-modal.tsx:148 | The button's check is weaker than submit's: a one-space name enables the button yet submit refuses it |
| RecordIds.CountId | src/components/dashboard/order-management.tsx:265 | The id given to a new record is the numeral for the list length plus one |
| RecordIds.MaxNumericId | src/components/dashboard/order-management.tsx:265 | Bounds every numeric id in the list, and is attained when positive |
| RecordIds.FreshNumericId | src/components/dashboard/order-management.tsx:265 | The corrected id is numeric and differs from every id in the list |
| RecordIds.FreshIdMatchesCountIdWithoutDeletes | src/components/dashboard/menu-management.tsx:194 | While the ids are "1".."n" the corrected id equals the one assigned |
| RecordIds.CountIdRepeatsAfterDelete | src/components/dashboard/order-management.tsx:265-327 | After ids "1","2" lose "1", the id assigned next is "2" again |
| RecordIds.DeleteById | src/components/dashboard/order-management.tsx:326-328 | Exactly the records with other ids remain, in order, each as often as before; a list without the id is unchanged |
| RecordIds.DeleteAppendedFreshId | src/components/dashboard/menu-management.tsx:234-238 | Deleting the id of an appended record whose id the list does not use gives the list back |
| RecordIds.DeleteDropsMatchingHead | src/components/dashboard/menu-management.tsx:234-238 | A leading record with the deleted id is dropped and the rest are deleted from as before |
| RecordIds.DeleteSharedIdEmpties | src/components/dashboard/order-management.tsx:326-328 | Deleting an id that every record carries leaves the empty list |
| DashboardOrders.FilteredOrders | src/components/dashboard/order-management.tsx:211-216 | Exactly the orders whose lower-cased name or id contains the lower-cased search and whose status passes the filter, in list order, each as often as in the list |
| DashboardOrders.Matches | src/components/dashboard/order-management.tsx:212-215 | With an empty search an order matches iff the filter is ALL or its status is the filter's |
| DashboardOrders.EmptySearchShowsAll | src/components/dashboard/order-management.tsx:211-216 | An empty search with ALL shows every order |
| DashboardOrders.SortedOrders | src/components/dashboard/order-management.tsx:219-221 | The same orders, newest creation time first |
| DashboardOrders.UnpaidView | src/components/dashboard/order-management.tsx:847-848 | The unpaid tab lists exactly the unpaid orders of the sorted list, in its order, each as often as there |
| DashboardOrders.UnpaidViewMembership | src/components/dashboard/order-management.tsx:211-221 | An order is on the unpaid tab iff it is listed, unpaid and passes the search and filter |
| DashboardOrders.PriceItem | src/components/dashboard/order-management.tsx:246-259 | A line records the menu's current price, subtotal price times quantity, and the form's menu, quantity and notes |
| DashboardOrders.SubtotalsMatchReference | src/components/dashboard/order-management.tsx:236-262 | The sum of the subtotals is `calculateOrderTotal` of the form's items |
| DashboardOrders.CreateOrder | src/components/dashboard/order-management.tsx:244-274 | Appends one order with id length+1, the form's name and status, one line per form item (id new-k, the item's menu, quantity and notes, the menu's current price, subtotal price times quantity), the reference total and both timestamps now; earlier orders are unchanged |
| DashboardOrders.KeptItemId | src/components/dashboard/order-management.tsx:289-292 | Line k keeps the current order's k-th line id if there is one, else becomes new-k |
| DashboardOrders.UpdateOrder | src/components/dashboard/order-management.tsx:280-319 | Without a current order nothing changes; otherwise orders with its id take the form's fields, the reference total and updatedAt now, keeping id and createdAt, and others are unchanged |
| DashboardOrders.UpdateKeepsLineIds | src/components/dashboard/order-management.tsx:289-292 | An update with the same number of lines keeps every line id |
| DashboardOrders.DeleteOrder | src/components/dashboard/order-management.tsx:326-328 | Exactly the orders with other ids remain, in order, each as often as before |
| DashboardOrders.ChangeStatus | src/components/dashboard/order-management.tsx:333-345 | Orders with the id take the new status and updatedAt now; nothing else changes |
| DashboardOrders.ChangeStatusIdempotent | src/components/dashboard/order-management.tsx:333-345 | Setting the same status twice equals setting it once |
| DashboardOrders.MarkPaidLeavesUnpaidView | src/components/dashboard/order-management.tsx:333-345 | Marking an order paid removes it from the unpaid tab and keeps every other unpaid match there |
| DashboardOrders.PaidOrderOffUnpaidView | src/components/dashboard/order-management.tsx:333-345 | After marking an id paid, no order on the unpaid tab carries that id |
| DashboardOrders.OtherOrderStaysOnUnpaidView | src/components/dashboard/order-management.tsx:333-345 | An unpaid matching order with another id is still on the unpaid tab after the change |
| DashboardOrders.CreatedIdCollidesAfterDelete | src/components/dashboard/order-management.tsx:265-328 | From orders "1","2", delete "1" then create: order "2" is left and the new order is given id "2" as well |
| DashboardOrders.DeleteFirstOfTwo | src/components/dashboard/order-management.tsx:326-328 | Deleting "1" from orders "1","2" leaves exactly order "2" |
| DashboardOrders.CreateAfterOneOrder | src/components/dashboard/order-management.tsx:265-275 | Creating after a single order appends one order, with id "2" whatever id the existing order has |
| DashboardOrders.DeleteCollidingIdRemovesBoth | src/components/dashboard/order-management.tsx:326-328 | Once order "2" and the order created after it share id "2", deleting "2" leaves no order at all |
| DashboardOrders.CreateOrderFreshId | src/components/dashboard/order-management.tsx:244-274 | The corrected create gives an id no existing order has, with the same total |
| DashboardOrders.DeleteFreshOrderRemovesOnlyIt | src/components/dashboard/order-management.tsx:326-328 | With the corrected id, deleting the new order removes exactly it |
| DashboardMenus.FilteredMenus | src/components/dashboard/menu-management.tsx:125-130 | Exactly the menus whose title, or description when present, contains the search (ignoring case) and whose category matches a selected one, in list order, each as often as in the list |
| DashboardMenus.MatchesSearch | src/components/dashboard/menu-management.tsx:126-127 | An empty search matches every menu; a match needs a text at least as long as the search |
| DashboardMenus.MatchesCategory | src/components/dashboard/menu-management.tsx:128 | No or an empty selected category lets every menu through; a non-empty one lets through exactly the menus in it |
| DashboardMenus.NoFilterShowsAll | src/components/dashboard/menu-management.tsx:125-130 | No search and no category shows every menu |
| DashboardMenus.CategoryFilterMembership | src/components/dashboard/menu-management.tsx:125-130 | With a category selected, a menu is shown iff it is listed, in that category and matches the search |
| DashboardMenus.CategoryName | src/components/dashboard/menu-management.tsx:186-189 | An unlisted category is named 'Unknown'; a listed one by a title listed under that id |
| DashboardMenus.CategoryNameOfListed | src/components/dashboard/menu-management.tsx:186-189 | A listed category gets its first listing's title, as the menu manager names it |
| DashboardMenus.StoredDescription | src/components/dashboard/menu-management.tsx:196 | An empty description is stored as none, any other as itself |
| DashboardMenus.NewMenu | src/components/dashboard/menu-management.tsx:193-201 | A new menu carries the form's fields, the parsed price, and a non-empty image |
| DashboardMenus.CreateMenu | src/components/dashboard/menu-management.tsx:192-203 | Appends the new menu with id length+1; earlier menus are unchanged |
| DashboardMenus.CreatedFromValidForm | src/components/dashboard/menu-management.tsx:192-203 | A menu created from a valid form has a positive price, a title of at least 3 UTF-16 code units, a category and an image |
| DashboardMenus.UpdatedMenu | src/components/dashboard/menu-management.tsx:214-222 | An edited menu keeps its id and, when the image field is blank, its image |
| DashboardMenus.UpdateMenu | src/components/dashboard/menu-management.tsx:209-227 | Without a current menu nothing changes; otherwise menus with its id are edited and the rest are unchanged |
| DashboardMenus.UpdateMenuIdempotent | src/components/dashboard/menu-management.tsx:209-227 | Submitting the same edit twice equals submitting it once |
| DashboardMenus.BlankImageKeepsPicture | src/components/dashboard/menu-management.tsx:221 | An edit with a blank image keeps every menu's image and id |
| DashboardMenus.DeleteMenu | src/components/dashboard/menu-management.tsx:234-238 | Exactly the menus with other ids remain, in order, each as often as before |
| DashboardMenus.DeleteUnknownIdKeepsAll | src/components/dashboard/menu-management.tsx:234-238 | Deleting an id nobody has changes nothing |
| DashboardMenus.CreatedIdCollidesAfterDelete | src/components/dashboard/menu-management.tsx:194-235 | From menus "1","2", delete "1" then create: two menus have id "2" |
| DashboardMenus.CreateMenuFreshId | src/components/dashboard/menu-management.tsx:192-203 | The corrected create gives an id no existing menu has |
| DashboardMenus.DeleteFreshMenuRestores | src/components/dashboard/menu-management.tsx:234-238 | With the corrected id, create then delete of the new menu gives back the original list |
| RestaurantDashboard.CurrentDashboard | src/components/dashboard/restaurant-dashboard.tsx:193-195 | There is no current insight iff none has the active tab's type; otherwise it is the first listed insight of that type |
| RestaurantDashboard.FindGraph | src/components/dashboard/restaurant-dashboard.tsx:211-225 | The chart found has a title containing one of the needles and is the first such chart; none is found iff no title does |
| RestaurantDashboard.ProcessedData | src/components/dashboard/restaurant-dashboard.tsx:198-289 | Without a current insight all four series are empty; the top list has at most 10 items and the grid is empty or has 15 rows |
| RestaurantDashboard.SalesSeries | src/components/dashboard/restaurant-dashboard.tsx:228-232 | The series holds every chart point (same length, same multiset) in ascending timestamp order; empty without a chart |
| RestaurantDashboard.SalesSeriesKeepsOrderedData | src/components/dashboard/restaurant-dashboard.tsx:228-232 | Chart data already in time order is drawn in that order |
| RestaurantDashboard.EntryName | src/components/dashboard/restaurant-dashboard.tsx:236 | A category entry is named by its category when non-empty, else by its label |
| RestaurantDashboard.CategorySeries | src/components/dashboard/restaurant-dashboard.tsx:235-238 | One entry per chart point, in order; empty without a chart |
| RestaurantDashboard.CategorySeriesEntry | src/components/dashboard/restaurant-dashboard.tsx:235-238 | Entry k is named by point k's category when that is a non-empty string and by its label otherwise, and carries point k's amount when numeric and 0 otherwise |
| RestaurantDashboard.TopMenuItems | src/components/dashboard/restaurant-dashboard.tsx:241-256 | At most 10 items, a prefix of the first top_10 point's entries of length min(10, n); empty without a chart, without that point, or when its value is not an object |
| RestaurantDashboard.FewTopItemsAllShown | src/components/dashboard/restaurant-dashboard.tsx:244-253 | With ten or fewer entries all are listed |
| RestaurantDashboard.TopSellingItem | src/components/dashboard/restaurant-dashboard.tsx:356 | The best seller is absent iff the top list is empty, else its first item |
| RestaurantDashboard.DayAmount | src/components/dashboard/restaurant-dashboard.tsx:272 | A day missing from the hour's object reads 0; a non-zero amount is one recorded for that day |
| RestaurantDashboard.HourCell | src/components/dashboard/restaurant-dashboard.tsx:270-276 | An hour with no point of its own reads 0 |
| RestaurantDashboard.HourlyGrid | src/components/dashboard/restaurant-dashboard.tsx:259-281 | Exactly 15 rows for hours 7.. with labels "H:00", each with the seven weekdays' cells; empty without a chart |
| RestaurantDashboard.HourlyGridSpan | src/components/dashboard/restaurant-dashboard.tsx:264 | The grid runs from 7:00 to 21:00 |
| RestaurantDashboard.MissingHourIsZeros | src/components/dashboard/restaurant-dashboard.tsx:270-276 | An hour without a point is a row of zeros |
| RestaurantDashboard.HourCellReadsPoint | src/components/dashboard/restaurant-dashboard.tsx:270-273 | A cell reads the day's amount from the first point for its hour |
| RestaurantDashboard.AverageSale | src/components/dashboard/restaurant-dashboard.tsx:357 | The average is 0 for an empty series, and otherwise times the point count gives the total |
| RestaurantDashboard.TotalSalesOfChart | src/components/dashboard/restaurant-dashboard.tsx:228-232 | The total does not depend on the sort: it is the sum over the points as delivered |
| RestaurantDashboard.TotalSalesAppend | src/components/dashboard/restaurant-dashboard.tsx:355 | The total of two series is the sum of their totals |
| RestaurantDashboard.PointAddsItsNumber | src/components/dashboard/restaurant-dashboard.tsx:228-232 | A chart point adds its number to the sales total, and a point whose value is not a number adds nothing |
| RestaurantDashboard.TabClick | src/components/dashboard/restaurant-dashboard.tsx:299-310 | A tab click switches tab, resets the pie slice to 0, and shows the tab's cached data when non-empty, else keeps what is shown |
| RestaurantDashboard.StartFetch | src/components/dashboard/restaurant-dashboard.tsx:147-148 | A fetch starts loading and clears the error, changing nothing else |
| RestaurantDashboard.FinishFetch | src/components/dashboard/restaurant-dashboard.tsx:150-186 | Loading ends; a missing token, a non-OK response, a thrown Error (its own message) or a thrown non-Error ('An error occurred') sets the error; loaded results are cached for the fetched tab and shown |
| RestaurantDashboard.ReturnToLoadedTab | src/components/dashboard/restaurant-dashboard.tsx:173-180 | After a tab's data loads, leaving and clicking it again puts that cached data in dashboardData right after the click, before the refetch the click starts completes |
| RestaurantDashboard.LoadedTabShowsItsInsight | src/components/dashboard/restaurant-dashboard.tsx:180-195 | Loaded results holding an insight of the active type give a current insight |
| AuthGate.AuthCheck | src/components/auth/auth-provider.tsx:16-33 | A redirect happens iff being on /login agrees with holding a token; /login with a token goes to /dashboard and keeps the flag; elsewhere without one goes to /login and clears it; otherwise the flag is set |
| AuthGate.Render | src/components/auth/auth-provider.tsx:35-47 | /login always renders; elsewhere a spinner iff unchecked, the page iff authenticated |
| AuthGate.ProtectedPageNeedsToken | src/components/auth/auth-provider.tsx:16-47 | Once checked, a page other than /login is shown iff there is a token |
| AuthGate.RedirectSettles | src/components/auth/auth-provider.tsx:21-32 | A redirect never targets the current page, and its target does not redirect again |
| SidebarContext.Encode | src/contexts/SidebarContext.tsx:66 | The stored value is 'open' iff the sidebar is open |
| SidebarContext.Decode | src/contexts/SidebarContext.tsx:29-32 | A present stored value means open iff it is 'open'; an absent one keeps the state |
| SidebarContext.DecodeEncode | src/contexts/SidebarContext.tsx:29-66 | A stored state reads back as itself |
| SidebarContext.Exposed | src/contexts/SidebarContext.tsx:78-80 | Before mount the context shows open and not mobile |
| SidebarContext.Mount | src/contexts/SidebarContext.tsx:25-35 | Mounting adopts the stored state and the width's mobile flag |
| SidebarContext.MountWithoutStoredStateIsOpen | src/contexts/SidebarContext.tsx:22-32 | Mounting with nothing stored leaves the sidebar open |
| SidebarContext.Toggle | src/contexts/SidebarContext.tsx:63-71 | Toggling flips the state only, stores a value that reads back as the new state, and broadcasts it |
| SidebarContext.ToggleTwice | src/contexts/SidebarContext.tsx:63-71 | Toggling twice restores the state and stores the original value |
| SidebarContext.OnStorage | src/contexts/SidebarContext.tsx:38-42 | Only the sidebarState key matters, and then the state is open iff the new value is 'open' |
| SidebarContext.OnResize | src/contexts/SidebarContext.tsx:44-46 | The mobile flag is width below 1024 |
| SidebarContext.OnSidebarChange | src/contexts/SidebarContext.tsx:48-50 | The broadcast's state is adopted and nothing else changes |
| SidebarContext.StorageEventFollowsToggle | src/contexts/SidebarContext.tsx:38-71 | Another provider receiving a toggle's stored value or broadcast reaches the same state |
| SidebarNav.CheckScreenSize | src/components/sidebar.tsx:23-26 | Mobile below 1024, and open iff not mobile |
| SidebarNav.Mount | src/components/sidebar.tsx:21-29 | Mounting marks mounted; the sidebar is mobile iff the width is below 1024, and open iff it is not mobile |
| SidebarNav.Persist | src/components/sidebar.tsx:39-48 | Nothing is written or dispatched before mount; after it, the stored value reads back as the state and the sidebarChange event carries the state |
| SidebarNav.PersistReachesProvider | src/components/sidebar.tsx:39-48 | A context provider that hears the effect, by its storage event or by the sidebarChange broadcast, adopts the sidebar's state |
| SidebarNav.MountPersistsWidth | src/components/sidebar.tsx:21-43 | After mounting, the stored state is 'open' iff the window is at least 1024 wide |
| SidebarNav.ToggleSidebar | src/components/sidebar.tsx:51-53 | Toggling flips the open flag only |
| SidebarNav.OverlayClick | src/components/sidebar.tsx:91-95 | An overlay click closes the sidebar, which removes the overlay |
| SidebarNav.OverlayClickIsToggle | src/components/sidebar.tsx:51-95 | Where the overlay is shown, clicking it equals toggling |
| SidebarNav.ActiveItems | src/components/sidebar.tsx:55-58 | An item is active iff the path equals its own exactly |
| SidebarNav.AtMostOneActive | src/components/sidebar.tsx:55-58 | At most one item is active, and one is iff the path is '/', '/menu' or '/order' |
| NotFound.CheckAuthStatus | src/app/not-found.tsx:13-23 | Loading ends, and the user is logged in iff a non-empty token was read without an exception |
| NotFound.LinkTarget | src/app/not-found.tsx:56-74 | The link leads to /dashboard iff logged in, else to /login |
| NotFound.LinkTargetNotRedirected | src/app/not-found.tsx:13-74 | Following the link never triggers the route guard's redirect |
| NotFound.ThrowLeadsToLogin | src/app/not-found.tsx:17-72 | A storage failure sends the user to /login |

## Left out

- HTTP requests, `response.json()`, toasts, alerts and console output are left out. Each fetch is modelled from the point its decoded outcome is known.
- JSON parsing of WebSocket frames and stored logs is left out. Frames and stored values are decoded variants: a frame `JSON.parse` rejects is the `Unparsable` field, after which nothing is delivered, and an unparsable stored log is the `Unreadable` case.
- ChatSocket.OnFrame: a truthy `message` that is neither a string nor an array (a number, `true`, an object) becomes the message's content as the value itself; the model carries it as its JSON text, since message contents are strings here.
- History entries whose `role` or `content` is not a string are not modelled.
- Timers are left out: the search debounce, the sidebar polling intervals and the auto-scroll. They are about timing, not state.
- Window listener registration and cleanup are left out. The handlers themselves are modelled.
- Rendering, icons, charts and date/currency formatting (`formatDate`, `getDayName`, `formatCurrency`) are left out. Timestamps are integers.
- `Date.now()`, `new Date()` and `formatTimestamp` are parameters (`now`, `ts`, `freshId`). In the socket handler they are clock functions `nowAt` and `stampAt`: the handler reads the clock once per message it builds, and `nowAt(k)` and `stampAt(k)` are the readings for message k of a frame.
- Floating point is left out. Money is a whole number, `calculateOrderTotal` and the modal's total are integer sums, and the average sale is a real.
- ToLower: lower-cases ASCII letters only. Case folding of other scripts is not modelled.
- ParseFloat: exponents, `Infinity` and hexadecimal forms are not read. The prices concerned are plain decimals.
- Common.ParseInt: reads an optional sign and decimal digits after white space. Radix prefixes are not modelled: `parseInt` reads `0x1A` as hexadecimal 26, while the model reads the digit run `0` and gives 0.
- Display: covers whole prices only. A fractional price such as 15000.5 is shown grouped by the source as well, but that case is not modelled.
- The menu list's mapping of API fields (`is_recommend`, `category_id`, the fixed image URL) is not modelled.
- The menu fetch tests `results` before a bare array, while the order fetch tests the array first. On the decoded response variants the two orders give the same result, so Pagination.ApplyResponse covers both.
- ChatMessages.Load: the stored key is a parameter. STORAGE_KEY is one fixed key, not scoped per session.
- The create-order modal's menu download loop (following `next` pages) is left out. Only its result, the menu list, is an input.
- The edit form's default price `menu.price.toString()` is not modelled.
- The sidebar's `sidebarChange` CustomEvent dispatch is modelled as the `broadcast` field of the value SidebarNav.Persist returns. Event delivery to listeners is not modelled.
- RestaurantDashboard.SalesAmount: a sales or category value that is not a number counts as 0. JavaScript would produce NaN or a string there.
- Chart points without a timestamp are not modelled. The source's comparator would compare `undefined` there.
- A `null` chart value, on which `Object.entries` throws, is not modelled. Values are numbers, objects or absent.
- Object values (an hour's day amounts, a top-ten point's entries) are sequences of key/value pairs in the order the JSON gives them. The engine's `Object.entries` order, with integer-like keys first, is not modelled, and neither is the collapse of duplicate JSON keys into the last one.
- PriceFormat.UpdatePrice: when the value holds both dots and other non-digit characters, the contract states only that no fraction is sent; the whole part read then is not stated.
- RestaurantDashboard.FinishFetch: a body that fails to decode throws an Error, so it is the `Rejected` outcome with that Error's message.

## Findings

| source | as written | input that shows it | evidently intended | confidence | as-written member | corrected member |
|---|---|---|---|---|---|---|
| src/components/dashboard/order-management.tsx:265 | a new order's id is `(orders.length + 1).toString()` | the mock orders "1" and "2"; delete "1", then create: the new order is "2" again, and deleting "2" then removes both orders (DashboardOrders.DeleteCollidingIdRemovesBoth) | a new order gets an id no existing order has | not executed | DashboardOrders.CreatedIdCollidesAfterDelete | DashboardOrders.CreateOrderFreshId |
| src/components/dashboard/menu-management.tsx:194 | a new menu's id is `(menus.length + 1).toString()` | menus "1" and "2"; delete "1", then create: two menus have id "2" | a new menu gets an id no existing menu has | not executed | DashboardMenus.CreatedIdCollidesAfterDelete | DashboardMenus.CreateMenuFreshId |
