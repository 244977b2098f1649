# Nouns: a verified model

A Dafny model of the parts of the Nouns repository where state and arithmetic have to line up
across several programs: the image codec, the auction house with its token, the indexes rebuilt
from their events, and the two derivations of a noun's seed.

## What is modelled

**The image codec.** `Images.Image` is the encoder's pixel loops over mutable rows and bounds,
`Svg` the decoder and the cursor-driven painter, `Encoder.PNGCollectionEncoder` the palette shared
by many images. An SVG is the list of its rectangles in paint order, measured in cells of ten
pixels; a cell shows the fill of the last rectangle over it. `RoundTrip.RoundTripExact` says which
images survive encoding, decoding and painting: exactly those whose border is clear, that is, whose
first and last columns are transparent and, if any row below row 0 is used, whose row 0 is
transparent and whose last row is transparent or row 31. `Encoder.StackShows` carries this to any
stack of names taken from an encoder after any calls, each standing for the last image given it, and
drawn with the palette it has by then.
`OnchainSvg` is the contract's own renderer, with its table of 33 numbers and its buffer of four
rectangles; it returns the same text as the SDK's. `SvgText` reads such a text back, attribute by
name, and `Pictures` goes the whole way: the text either renderer returns for a stack of encoded
images has, at every pixel, the red, green and blue of the topmost opaque image.

**The token.** `Token.Exec` is one external call on `NounsToken`, over its ERC-721 ledger and its
vote checkpoints, and `Token.Run` any sequence of calls and blocks. A call ends in `Ok`, in `Error`
(a revert with a message) or in `Panic` (any other revert), and only `Ok` leaves a trace. The class
`TokenContract.NounsToken` updates the storage in place, as the contract does, and each of its
methods is proved to be one such transition. `TokenCalls` says when each call goes through and what
it leaves, and that approvals, delegates, operators and roles are what the history of calls adds up
to. `Enumerable` keeps the token lists beside it.

**The auction house.** `Market.Act` is one external call on `NounsAuctionHouse` or on the token by
anyone, `Market.Play` any sequence of such calls and of waiting. The recipient of ETH may refuse it,
call by call, and the amount then goes out as WETH. The class
`AuctionHouseContract.NounsAuctionHouse` holds the storage and calls the token. What holds of whole
runs is in `MarketRuns`, `Payments`, `HouseSettings`, `Custody`, `Settling` and `Bidding`, and when each
call goes through in `HouseCalls` and `Bidding`; `TokenProjection` shows that everything proved of
token runs also holds beside the house.

**The indexes.** `Subgraph.Indexer` is the store of the subgraph and its handlers: a load gives a
private copy and a save writes it back, so a copy loaded early can overwrite a later save.
`IndexRuns` compares the replayed log with the token, `AuctionReplica` with the auction house;
`Representation` follows the delegates the transfers make.
`AuctionSlice` is the web application's replica of the current auction, fed by a websocket that may
repeat and reorder bids, and `SliceRuns` compares it with the house.

**The seeds.** `Seeder` derives a noun's five parts from a hash by shifts and casts, as the contract
does, and by cutting hexadecimal text, as the assets package does.

## Where the code does less than one might expect

Each of these has its exact condition as a theorem, named here, and a concrete input or run in
`Counterexamples`.

- An opaque pixel on the border of an image can be lost or move (`RoundTripExact`; `TopRowLost`).
- A palette handed to the encoder's constructor can leave two keys with one index
  (`SeedOrderExact`; `LoneColourClashes`).
- The text derivation throws for hashes below 2^232, where the arithmetic one answers (`SeedExact`;
  `ShortHashHasNoText`).
- An account that delegates to the zero address by signature stays its own delegate, and its votes
  no longer match its tokens if it had any to give up (`VotesExact`). If it has then given up the
  votes of every token delegated to it, its tokens cannot move to an account with another delegate
  (`OwnerRefusedExact`; `SignedAwayTokenIsStuck`).
- A transfer from an account to itself makes the subgraph count a token twice (`RunIndexExact`;
  `SelfTransferRun`).
- A running auction can get into a state from which nothing ever settles it: a minter other than the
  house burns its noun (`CustodyExact`), or nobody bids in time and the minter has been moved away and
  locked, or moved away by an owner of the token who then renounced. `SettleableExact` says from
  which states it can still be settled (`ForeignBurnStrands`, `LockedOut`).
- The subgraph's `currentTokenHolders`, which its schema calls the current number of token holders,
  takes the zero address for a holder once anything has gone there: a burn, or a mint after the
  token's owner renounced (`HolderCountExact`; `UnsoldRun`). Its `totalTokenHolders` counts existing
  tokens, not holders.
- The house takes a second bid of the same amount when the increment rounds to zero (`TieExact`,
  `TiedRun`). The web application then shows the first of the highest bids to arrive, while the
  house keeps the last (`BidderShownExact`; `TiedBidsDisagree`).
- The web application tells bids apart by their transaction. Of two bids a contract makes in one
  transaction it keeps the first to arrive, and can show less than the house has
  (`SliceMatchesHouse`, `MixedFeedExact`; `SharedHashRun`).
- Extensions that arrive out of order leave the web application with too early an end
  (`EndShownExact`, `MixedFeedExact`; `SwappedExtensions`).

One check that looks missing is not: `createBid` does not test whether the auction is settled, and
need not, since a settled auction is always over (`BidFindsAuction`).

## Assumptions

- Block time is positive, and time and block number never decrease.
- No call comes from the zero address. The house makes no calls but its own, holds no signing key,
  and has no registered proxy.
- ETH reaches the house only through `createBid`, and a call is atomic: the reentrancy guard is
  taken at its word.
- An image has at least one pixel in a row; the theorems about whole images hold up to 256 by 256
  cells and 256 colours, which is what the format's single bytes can hold.
- The hash a seed is drawn from is an arbitrary number, and so is a transaction hash in the feed:
  nothing supposes that two bids have two hashes.

## Model

| member | source | states |
|---|---|---|
| Hex.ByteRoundTrip | packages/nouns-sdk/src/image/utils.ts:6-8 | a byte prints as exactly two digits, which parse back to it |
| Hex.RgbToHexInjective | packages/nouns-sdk/src/image/utils.ts:16-18 | a colour name has six digits, and two colours with one name are equal in every channel |
| Hex.RgbToHexExact | packages/nouns-sdk/src/image/utils.ts:16-18 | a colour name is six digits and reads as the number with red as its highest byte, green next and blue lowest |
| RunLength.RunsExpand | packages/nouns-sdk/src/image/image.ts:121-136 | the runs built pixel by pixel expand to exactly the row, are all non-empty, and no two neighbours share a colour |
| RunLength.RunsShortestUnique | packages/nouns-sdk/src/image/image.ts:121-136 | no run list for the same row is shorter, and one of the same length is the same list |
| RunLength.CanonicalIsRuns | packages/nouns-sdk/src/image/image.ts:121-136 | every run list without empty runs or equal neighbours is the one the encoder builds for its expansion |
| ImageFormat.ScanRowsFound | packages/nouns-sdk/src/image/image.ts:142-162 | what the top and bottom state machine has found after all rows: the first used row below row 0, and the last used row if a blank row or row 31 closed it |
| ImageFormat.BoundsEnclose | packages/nouns-sdk/src/image/image.ts:95-98 | the left and right folds enclose every kept row and are each attained by one |
| ImageFormat.CropExact | packages/nouns-sdk/src/image/image.ts:203-232 | a row cropped to the box is written as runs that expand to its pixels between the bounds, sum to right - left, are non-empty when the box is, and use only colours of the row |
| Images.Image.constructor | packages/nouns-sdk/src/image/image.ts:44-47 | a new image has its size, no rows, zero bounds and no remembered string |
| Images.Image.ToRLE | packages/nouns-sdk/src/image/image.ts:55-63 | the first call encodes and grows the palette; every later call returns the same string and leaves the palette alone |
| Images.Image.Encode | packages/nouns-sdk/src/image/image.ts:70-114 | the loops over pixels insert exactly the scanned colour names in order, and print the encoding of the plane of final palette indices |
| Images.Image.AppendRow | packages/nouns-sdk/src/image/image.ts:75-88 | after one pixel row, rows, bounds and palette describe exactly the pixels scanned so far |
| Images.Image.AppendPixelToRect | packages/nouns-sdk/src/image/image.ts:121-136 | one pixel joins its row and no other row changes; RunLength.RunsSnoc says what the row then holds |
| Images.Image.UpdateImageBounds | packages/nouns-sdk/src/image/image.ts:142-168 | rows and bounds describe one more finished row: its runs, its own left and right, and the span so far |
| Images.Image.DeleteEmptyRows | packages/nouns-sdk/src/image/image.ts:174-184 | exactly the rows from top to bottom stay, unchanged |
| Images.Image.Print | packages/nouns-sdk/src/image/image.ts:92-113 | kept rows, folds, early exit and printing together give the encoding of the scanned plane |
| Images.Image.PrintRows | packages/nouns-sdk/src/image/image.ts:107-111 | header and rows are printed in row order |
| Svg.PaintRuns | packages/nouns-sdk/src/image/svg-builder.ts:44-65 | the loop with its wrapping cursor emits the rectangles of the recursive walk over the runs |
| Svg.BuildSvg | packages/nouns-sdk/src/image/svg-builder.ts:35-71 | the parts are painted in order, later over earlier; None, for a text with NaN in it, exactly when some part does not decode |
| Svg.WalkRow | packages/nouns-sdk/src/image/svg-builder.ts:60-64 | a row whose runs end at the right bound wraps the cursor exactly once, at its end, and paints the same rectangles as if it never wrapped |
| Svg.RowStrokesShow | packages/nouns-sdk/src/image/svg-builder.ts:46-58 | the rectangles of a run list show exactly its non-transparent pixels, at every cell of the canvas |
| Svg.ShownConcat | packages/nouns-sdk/src/image/svg-builder.ts:40-68 | what is painted later hides what is painted earlier and nothing else does |
| Svg.OutsidePalette | packages/nouns-sdk/src/image/svg-builder.ts:46-58 | a visible run whose colour is outside the palette is painted in the fill undefined |
| Svg.ParseFlatten | packages/nouns-sdk/src/image/svg-builder.ts:17-25 | run lists printed as byte pairs parse back to themselves |
| Svg.PrefixOptional | packages/nouns-sdk/src/image/svg-builder.ts:7-9 | a string decodes alike with and without its 0x |
| RoundTrip.BoxShown | packages/nouns-sdk/src/image/svg-builder.ts:7-71 | whatever the border, a box with left <= right decodes, and paints exactly the kept rows between its bounds |
| RoundTrip.KeptRowsFound | packages/nouns-sdk/src/image/image.ts:142-184 | which rows survive deletion: all from the first to the last used row, row 0 alone, or none when the bottom was never closed |
| RoundTrip.WideLeftUndecodable | packages/nouns-sdk/src/image/image.ts:190-196 | a left bound of 256 prints three digits and leaves a string that does not decode |
| RoundTrip.ClearRoundTrips | packages/nouns-sdk/src/image/image.ts:70-114 | an image with a clear border decodes and paints to exactly its opaque pixels, each with its own palette colour, and nothing elsewhere |
| RoundTrip.RoundTripsClear | packages/nouns-sdk/src/image/image.ts:142-184 | conversely, an image that survives the trip has a clear border |
| RoundTrip.RoundTripExact | packages/nouns-sdk/src/image/image.ts:70-114 | within the format's sizes, encoding, decoding and painting reproduce an image if and only if its border is clear |
| RoundTrip.EncodeCases | packages/nouns-sdk/src/image/image.ts:94-111 | a plane is written as the fixed empty string when every pixel is transparent, and otherwise as its header followed by its kept rows |
| RoundTrip.BoundingBoxExact | packages/nouns-sdk/src/image/image.ts:92-105 | with a clear border the header box holds every opaque pixel, and every box that does encloses it |
| Palette.ColorMap.Set | packages/nouns-sdk/src/image/png-collection-encoder.ts:17 | setting a key that exists keeps its place in the order; a new key goes last |
| Palette.InsertAllGrows | packages/nouns-sdk/src/image/image.ts:79-82 | inserting colours only when absent keeps index i on the i-th key and never moves or drops an entry |
| Encoder.PNGCollectionEncoder.constructor | packages/nouns-sdk/src/image/png-collection-encoder.ts:10-18 | the palette starts with the transparent entry and then has the given colours set at their own positions |
| Encoder.PNGCollectionEncoder.EncodeImage | packages/nouns-sdk/src/image/png-collection-encoder.ts:40-51 | the shared palette grows by this image's colours; the string is returned and stored under its name, replacing an earlier one, and the name is listed in its folder, in call order |
| Encoder.SeedOrderExact | packages/nouns-sdk/src/image/png-collection-encoder.ts:15-18 | a given palette leaves every key at its own index if and only if it begins with the transparent entry, or with its first colour twice, and repeats nothing after that |
| Encoder.PaletteGrows | packages/nouns-sdk/src/image/png-collection-encoder.ts:15-51 | over any sequence of images an ordered palette stays ordered and every earlier palette is a prefix of every later one |
| Encoder.PlaneFinal | packages/nouns-sdk/src/image/image.ts:76-87 | an index written early still names its colour in the final palette, and is 0 exactly for transparent pixels |
| Encoder.PartShows | packages/nouns-sdk/src/image/svg-builder.ts:35-71 | a part encoded at any time, decoded against the final palette, shows exactly its opaque pixels, each in a fill that reads as its own red, green and blue |
| Encoder.LayersShow | packages/nouns-sdk/src/image/svg-builder.ts:35-71 | any choice of parts layered against the final palette shows at every cell the red, green and blue of the topmost opaque part, and nothing where none is |
| Encoder.CollectionExact | packages/nouns-sdk/src/image/png-collection-encoder.ts:10-51 | after any calls on a new encoder every name ever given, and no other, holds the string of the last image given it, names are kept in the order they first came, each folder lists its calls in order, and the palette is the one grown through all of them |
| Encoder.StackShows | packages/nouns-sdk/src/image/svg-builder.ts:35-71 | any stack of names taken from the encoder and drawn with its palette shows at every cell the red, green and blue of the topmost opaque part, each name standing for the last image given it |
| OnchainSvg.LookupExact | packages/nouns-contracts/contracts/libs/MultiPartRLEToSVG.sol:59-65 | the table of 33 strings holds the decimal text of ten times each index |
| OnchainSvg.DecodeRleImage | packages/nouns-contracts/contracts/libs/MultiPartRLEToSVG.sol:127-143 | the loop returns the five header bytes and the pairs after them, and fails exactly when the data is shorter than the header or ends in half a pair |
| OnchainSvg.GetChunk | packages/nouns-contracts/contracts/libs/MultiPartRLEToSVG.sol:111-122 | the filled part of the buffer is printed four strings to a rectangle, leftovers from earlier fillings ignored |
| OnchainSvg.GeneratePart | packages/nouns-contracts/contracts/libs/MultiPartRLEToSVG.sol:68-103 | the buffered loop prints the same rectangles as the plain walk over the runs, and fails exactly when a visible run leaves the table or the palette |
| OnchainSvg.GenerateSvg | packages/nouns-contracts/contracts/libs/MultiPartRLEToSVG.sol:34-105 | the document for all parts, failing exactly when some part cannot be drawn or there are more than 255 |
| OnchainSvg.RevertExact | packages/nouns-contracts/contracts/libs/MultiPartRLEToSVG.sol:34-143 | the contract returns a text if and only if there are at most 255 parts, each has its header and whole pairs, and every visible run starts within 33 cells either way, is at most 32 long and has its colour in the palette its part names |
| OnchainSvg.DecodersAgree | packages/nouns-sdk/src/image/svg-builder.ts:7-27 | for all bytes, the SDK decodes their hexadecimal text to what the contract decodes from the bytes, and meets a NaN exactly where the contract reverts |
| OnchainSvg.RenderersAgree | packages/nouns-contracts/contracts/libs/MultiPartRLEToSVG.sol:34-105 | given the same parts and palette, the contract returns character for character the text of buildSVG, unless it reverts, and the condition for that is exact |
| SvgText.PictureReads | packages/nouns-contracts/contracts/libs/MultiPartRLEToSVG.sol:34-122 | read back by tag and attribute name, a document is an svg of 320 by 320 with its background and exactly its rectangles in order, ten pixels to a cell |
| OnchainImages.SdkDepicts | packages/nouns-sdk/src/image/svg-builder.ts:35-71 | the text of buildSVG, read back, shows its parts painted over one another, pixel for pixel |
| OnchainImages.ContractDepicts | packages/nouns-contracts/contracts/libs/MultiPartRLEToSVG.sol:34-105 | so does the text of the contract for parts it can draw |
| OnchainImages.ContractDraws | packages/nouns-contracts/contracts/libs/MultiPartRLEToSVG.sol:54-105 | for every image of at most 32 by 32 cells with a clear border, encoded by the SDK with colours in palette 0, the text the contract returns, read back by tag and attribute name, shows the image at every pixel |
| Pictures.SdkStackShows | packages/nouns-sdk/src/image/svg-builder.ts:35-71 | the text buildSVG returns for any stack of names from an encoder, read back, has at every pixel the red, green and blue of the topmost opaque image |
| Pictures.ContractStackShows | packages/nouns-contracts/contracts/libs/MultiPartRLEToSVG.sol:34-105 | with the encoder's palette as palette 0, so has the text the contract returns for the bytes of any stack of fewer than 256 images of at most 32 by 32 cells |
| Ledger.CreditCounted | packages/nouns-contracts/contracts/base/ERC721.sol:326-332 | minting keeps every balance equal to the number of tokens its account owns |
| Ledger.DebitCounted | packages/nouns-contracts/contracts/base/ERC721.sol:346-358 | burning never underflows a balance, keeps the count, and leaves the token without an approved address |
| Ledger.MoveCounted | packages/nouns-contracts/contracts/base/ERC721.sol:371-389 | so does a transfer, a transfer to oneself included |
| Ledger.TotalSupply | packages/nouns-contracts/contracts/base/ERC721.sol:319-389 | the balances of all owners add up to the number of existing tokens |
| Votes.GetPriorVotes | packages/nouns-contracts/contracts/base/ERC721Checkpointable.sol:161-193 | the binary search returns the votes of the last checkpoint at or before the block, 0 if there is none, and refuses unfinished blocks |
| Votes.WriteKeepsPast | packages/nouns-contracts/contracts/base/ERC721Checkpointable.sol:230-249 | writing a checkpoint sets the current votes, keeps checkpoints in block order and changes no answer about an earlier block |
| Votes.MoveDelegatesExact | packages/nouns-contracts/contracts/base/ERC721Checkpointable.sol:208-228 | moving votes takes them from one account, gives them to another, touches nobody else and no past block |
| Token.ExecKeeps | packages/nouns-contracts/contracts/NounsToken.sol:151-211 | every successful call keeps owners, balances, delegates and checkpoints consistent; no account's votes fall out of step with the tokens delegated to it, save by what it signs over to the zero address |
| Token.MintBothKeeps | packages/nouns-contracts/contracts/NounsToken.sol:151-156 | so does a mint with its reward |
| Token.MoveKeeps | packages/nouns-contracts/contracts/base/ERC721.sol:371-389 | so does a transfer, which also clears the approval |
| Token.BurnKeeps | packages/nouns-contracts/contracts/base/ERC721.sol:346-358 | so does a burn, which also clears the approval |
| Token.RedelegateKeeps | packages/nouns-contracts/contracts/base/ERC721Checkpointable.sol:195-206 | changing a delegate moves the whole balance of votes and keeps every past answer |
| TokenRuns.RunSound | packages/nouns-contracts/contracts/NounsToken.sol:151-211 | that consistency holds after any run, and block numbers only grow |
| TokenRuns.VotesOverRun | packages/nouns-contracts/contracts/base/ERC721Checkpointable.sol:195-228 | over any run an account is short of votes by exactly what it signed away |
| TokenRuns.VotesExact | packages/nouns-contracts/contracts/base/ERC721Checkpointable.sol:124-142 | after any run every account's votes equal the tokens delegated to it if and only if nobody gave up any votes by signing them over to the zero address |
| TokenRuns.PriorVotesRecorded | packages/nouns-contracts/contracts/base/ERC721Checkpointable.sol:161-193 | a query about a finished block answers, ever after, the votes held when that block ended |
| TokenRuns.HookExact | packages/nouns-contracts/contracts/base/ERC721Checkpointable.sol:95-104 | the vote hook lets a token be moved or burned if and only if both parties have one delegate or the owner's delegate has a vote to take, within the integer widths |
| TokenRuns.TransferExact | packages/nouns-contracts/contracts/base/ERC721.sol:180-189 | within the integer widths, a transfer goes through if and only if the token exists and is the named owner's, the recipient is not the zero address, the sender is the owner, its approved address, its proxy or an operator, and the vote hook lets it go |
| TokenRuns.OwnerRefusedExact | packages/nouns-contracts/contracts/base/ERC721Checkpointable.sol:95-104 | within the integer widths, in any run an owner is refused a transfer of its own token if and only if the two delegates differ and its own has given up the votes of every token delegated to it |
| TokenCalls.ApproveExact | packages/nouns-contracts/contracts/base/ERC721.sol:139-149 | an approval goes through if and only if the token exists, is not approved to its owner and the owner or its operator gives it; then it is recorded and nothing else changes |
| TokenCalls.ApprovalsExact | packages/nouns-contracts/contracts/base/ERC721.sol:346-397 | over any run from deployment a token's approved address is that of the last approval since the token last moved |
| TokenCalls.TransferLeaves | packages/nouns-contracts/contracts/base/ERC721.sol:371-389 | a transfer that goes through gives the token to its recipient and logs just that |
| TokenCalls.BurnExact | packages/nouns-contracts/contracts/NounsToken.sol:161-164 | within the integer widths, a burn goes through if and only if the minter asks, the token exists and its owner's delegate has a vote; the token is then gone and one transfer to the zero address logged |
| TokenCalls.RolesExact | packages/nouns-contracts/contracts/NounsToken.sol:187-211 | over any run minter, lock, nounders and owner are the ones that those entitled last set |
| TokenCalls.OperatorsExact | packages/nouns-contracts/contracts/base/ERC721.sol:163-175 | over any run b may act for a if and only if it is a's registered proxy or a's last word on b made it an operator |
| TokenCalls.DelegateStatus | packages/nouns-contracts/contracts/base/ERC721Checkpointable.sol:195-228 | within the integer widths, a delegation goes through if and only if the delegate so far has the delegator's votes to give or none need to move |
| TokenCalls.DelegateLeaves | packages/nouns-contracts/contracts/base/ERC721Checkpointable.sol:195-228 | the delegatee is then the delegate, the balance of votes has changed hands, and nobody else's delegate or votes are different |
| TokenCalls.DelegatesExact | packages/nouns-contracts/contracts/base/ERC721Checkpointable.sol:86-142 | over any run an account's delegate is the one it last chose, itself if none or the zero address |
| Token.OperatorSwitch | packages/nouns-contracts/contracts/NounsToken.sol:138-144 | operators are set and cleared at will and only by the account itself, while a registered proxy is one for good |
| TokenRuns.MintExact | packages/nouns-contracts/contracts/NounsToken.sol:151-156 | one mint hands the nounders of the moment a reward token exactly when one is due, gives the minter the highest new id, and that id is never a reward |
| TokenCalls.MintStatusExact | packages/nouns-contracts/contracts/NounsToken.sol:151-156 | within the integer widths, a mint fails for all but the minter, and otherwise ends as the seeder answers, first for the reward if one is due and then for the token, and never for the zero address |
| TokenCalls.MintLeaves | packages/nouns-contracts/contracts/NounsToken.sol:151-156 | a mint leaves the reward with the nounders, the reported token with the minter, and every other owner, approval, operator and role as before |
| TokenRuns.RewardSchedule | packages/nouns-contracts/contracts/NounsToken.sol:151-156 | after k mints in any run the next id is k + min(ceil(k/9), 183), and the tokens handed to the nounders of the moment, besides those reported to the minter, are exactly the multiples of ten up to 1820 below it |
| Enumerable.Enumeration.constructor | packages/nouns-contracts/contracts/base/ERC721Enumerable.sol:39-48 | all lists start empty |
| Enumerable.Enumeration.AddTokenToOwnerEnumeration | packages/nouns-contracts/contracts/base/ERC721Enumerable.sol:118-123 | the token takes the slot after the owner's last |
| Enumerable.Enumeration.AddTokenToAllTokensEnumeration | packages/nouns-contracts/contracts/base/ERC721Enumerable.sol:129-132 | the token goes last in the list of all tokens |
| Enumerable.Enumeration.RemoveTokenFromOwnerEnumeration | packages/nouns-contracts/contracts/base/ERC721Enumerable.sol:141-158 | the owner's last token fills the gap, or nothing changes at all when the owner has none |
| Enumerable.Enumeration.RemoveTokenFromAllTokensEnumeration | packages/nouns-contracts/contracts/base/ERC721Enumerable.sol:164-181 | the last of all tokens fills the gap; fails exactly when there is no slot to fill |
| Enumerable.Enumeration.BeforeTokenTransfer | packages/nouns-contracts/contracts/base/ERC721Enumerable.sol:94-111 | the hook adds, removes or does nothing according to where the token comes from and goes |
| Enumerable.HookKeepsLists | packages/nouns-contracts/contracts/base/ERC721Enumerable.sol:94-181 | on a token in the state it should be in the hook never fails, and afterwards slots and positions again undo one another for every owner and for the whole |
| Enumerable.ListsExact | packages/nouns-contracts/contracts/base/ERC721Enumerable.sol:94-181 | from deployment on, over any run of the token, that stays so |
| Enumerable.EnumerationExact | packages/nouns-contracts/contracts/base/ERC721Enumerable.sol:60-78 | hence an account's tokens by index are exactly those it owns, each once; all tokens by index are the existing ones, each once, and totalSupply counts them |
| TokenContract.NounsToken.constructor | packages/nouns-contracts/contracts/NounsToken.sol:106-118 | deployment: no tokens, votes or approvals, and the given roles |
| TokenContract.NounsToken.WriteCheckpoint | packages/nouns-contracts/contracts/base/ERC721Checkpointable.sol:230-249 | the same-block checkpoint is replaced, otherwise one is appended; a block number or a count out of width fails |
| TokenContract.NounsToken.MoveVotes | packages/nouns-contracts/contracts/base/ERC721Checkpointable.sol:208-228 | votes move as Votes.MoveDelegatesExact describes, or the call fails as the arithmetic does |
| TokenContract.NounsToken.BeforeTokenTransfer | packages/nouns-contracts/contracts/base/ERC721Checkpointable.sol:95-104 | one vote moves between the delegates of the two parties |
| TokenContract.NounsToken.MintToken | packages/nouns-contracts/contracts/base/ERC721.sol:319-334 | a token comes into being with its owner, balance, votes and two events, or the step fails |
| TokenContract.NounsToken.DebitToken | packages/nouns-contracts/contracts/base/ERC721.sol:351-354 | approval and balance go; fails on an empty balance |
| TokenContract.NounsToken.BurnInternal | packages/nouns-contracts/contracts/base/ERC721.sol:346-358 | a token goes with its owner, balance, votes, approval and one event, or the step fails |
| TokenContract.NounsToken.TransferInternal | packages/nouns-contracts/contracts/base/ERC721.sol:371-389 | a token changes owner with balances, votes, approval and one event, or the step fails |
| TokenContract.NounsToken.MintOne | packages/nouns-contracts/contracts/NounsToken.sol:256-264 | the counter advances by one and the token minted is the one it named |
| TokenContract.NounsToken.Mint | packages/nouns-contracts/contracts/NounsToken.sol:151-156 | the whole call is one transition of Token.Exec, undone completely when any part fails, and returns the last id |
| TokenContract.NounsToken.Burn | packages/nouns-contracts/contracts/NounsToken.sol:161-164 | one transition of Token.Exec, or nothing |
| TokenContract.NounsToken.TransferFrom | packages/nouns-contracts/contracts/base/ERC721.sol:180-189 | one transition of Token.Exec, or nothing |
| TokenContract.NounsToken.Approve | packages/nouns-contracts/contracts/base/ERC721.sol:139-149 | one transition of Token.Exec, or nothing |
| TokenContract.NounsToken.SetApprovalForAll | packages/nouns-contracts/contracts/base/ERC721.sol:163-168 | one transition of Token.Exec, or nothing |
| TokenContract.NounsToken.SetMinter | packages/nouns-contracts/contracts/NounsToken.sol:197-201 | one transition of Token.Exec, or nothing |
| TokenContract.NounsToken.LockMinter | packages/nouns-contracts/contracts/NounsToken.sol:207-211 | one transition of Token.Exec, or nothing |
| TokenContract.NounsToken.SetNoundersDAO | packages/nouns-contracts/contracts/NounsToken.sol:187-191 | one transition of Token.Exec, or nothing |
| TokenContract.NounsToken.DelegateFrom | packages/nouns-contracts/contracts/base/ERC721Checkpointable.sol:195-206 | the delegate changes and the whole balance of votes follows |
| TokenContract.NounsToken.Delegate | packages/nouns-contracts/contracts/base/ERC721Checkpointable.sol:110-113 | one transition of Token.Exec, or nothing; the zero address means oneself |
| TokenContract.NounsToken.DelegateBySig | packages/nouns-contracts/contracts/base/ERC721Checkpointable.sol:124-142 | one transition of Token.Exec, or nothing; here the zero address means the zero address |
| TokenContract.NounsToken.TransferOwnership | packages/nouns-contracts/contracts/NounsToken.sol:29 | one transition of Token.Exec, or nothing; ownership comes from the Ownable contract it inherits |
| TokenContract.NounsToken.RenounceOwnership | packages/nouns-contracts/contracts/NounsToken.sol:29 | one transition of Token.Exec, or nothing; the creator named in later mints is then the zero address |
| AuctionHouseContract.NounsAuctionHouse.constructor | packages/nouns-contracts/contracts/NounsAuctionHouse.sol:62-81 | an initialised house: paused, no auction, no balance |
| AuctionHouseContract.NounsAuctionHouse.SafeTransferETHWithFallback | packages/nouns-contracts/contracts/NounsAuctionHouse.sol:256-270 | the amount leaves the house whether or not the recipient takes it, and is recorded as wrapped exactly when it does not |
| AuctionHouseContract.NounsAuctionHouse.CreateBid | packages/nouns-contracts/contracts/NounsAuctionHouse.sol:104-150 | one transition of Market.Act, undone completely when it fails |
| AuctionHouseContract.NounsAuctionHouse.PlaceBid | packages/nouns-contracts/contracts/NounsAuctionHouse.sol:104-150 | the statements of a bid, in order, against Market.Bid |
| AuctionHouseContract.NounsAuctionHouse.SettleInternal | packages/nouns-contracts/contracts/NounsAuctionHouse.sol:231-251 | burn or transfer, payout and event, against Market.Settle |
| AuctionHouseContract.NounsAuctionHouse.CreateInternal | packages/nouns-contracts/contracts/NounsAuctionHouse.sol:207-225 | mint and start, or pause on a mint refused with a message, against Market.Create |
| AuctionHouseContract.NounsAuctionHouse.SettleAuction | packages/nouns-contracts/contracts/NounsAuctionHouse.sol:96-98 | one transition of Market.Act, undone completely when it fails |
| AuctionHouseContract.NounsAuctionHouse.SettleCurrentAndCreateNewAuction | packages/nouns-contracts/contracts/NounsAuctionHouse.sol:87-90 | settlement and new auction are one transition: if the second fails the first is undone |
| AuctionHouseContract.NounsAuctionHouse.Pause | packages/nouns-contracts/contracts/NounsAuctionHouse.sol:156-158 | one transition of Market.Act, or nothing |
| AuctionHouseContract.NounsAuctionHouse.Unpause | packages/nouns-contracts/contracts/NounsAuctionHouse.sol:164-170 | one transition of Market.Act, undone completely when it fails |
| AuctionHouseContract.NounsAuctionHouse.SetTimeBuffer | packages/nouns-contracts/contracts/NounsAuctionHouse.sol:176-180 | one transition of Market.Act, or nothing |
| AuctionHouseContract.NounsAuctionHouse.SetReservePrice | packages/nouns-contracts/contracts/NounsAuctionHouse.sol:186-190 | one transition of Market.Act, or nothing |
| AuctionHouseContract.NounsAuctionHouse.SetMinBidIncrementPercentage | packages/nouns-contracts/contracts/NounsAuctionHouse.sol:196-200 | one transition of Market.Act, or nothing |
| AuctionHouseContract.NounsAuctionHouse.TransferOwnership | packages/nouns-contracts/contracts/NounsAuctionHouse.sol:36 | one transition of Market.Act, or nothing; ownership comes from the OwnableUpgradeable contract it inherits |
| AuctionHouseContract.NounsAuctionHouse.RenounceOwnership | packages/nouns-contracts/contracts/NounsAuctionHouse.sol:36 | one transition of Market.Act, or nothing; later payouts then go to the zero address |
| MarketRuns.BidFindsAuction | packages/nouns-contracts/contracts/NounsAuctionHouse.sol:104-118 | an accepted bid finds an auction that has begun and is not settled, though createBid tests neither |
| MarketRuns.MoneyConserved | packages/nouns-contracts/contracts/NounsAuctionHouse.sol:104-271 | in every reachable state the house holds exactly the leading bid of an unsettled auction and nothing otherwise; what each account paid in came back as refunds, bought the auctions it won or is its leading bid; payouts equal the settled amounts |
| Payments.CashExact | packages/nouns-contracts/contracts/NounsAuctionHouse.sol:104-271 | over any run the house's payments are exactly these: each accepted bid comes in and the bid it beats goes back to its bidder, each settlement pays its amount to the owner, as WETH exactly when the recipient does not take ETH |
| Payments.PayeesExact | packages/nouns-contracts/contracts/NounsAuctionHouse.sol:246-248 | over any run an account has been paid exactly the winning amounts of the auctions settled while it owned the house |
| MarketRuns.OutsideCallHandsOff | packages/nouns-contracts/contracts/base/ERC721.sol:180-189 | nobody but the minter, by burning, can take a noun from the house |
| Custody.InvariantHolds | packages/nouns-contracts/contracts/NounsAuctionHouse.sol:87-251 | in every reachable state auctioned ids strictly increase, each auction is settled exactly once before the next begins, none unsettled is overwritten, and token and money are consistent |
| Custody.CustodyExact | packages/nouns-contracts/contracts/NounsAuctionHouse.sol:207-251 | a step takes the noun of a running auction out of the house's hands if and only if it is a burn of that noun by a minter other than the house |
| Custody.CustodyKept | packages/nouns-contracts/contracts/NounsAuctionHouse.sol:207-251 | so in any run without such a burn every running auction's noun is the house's |
| Custody.SettlementDelivers | packages/nouns-contracts/contracts/NounsAuctionHouse.sol:231-251 | a settlement hands the noun to the winner or destroys it if there is none, and empties the house |
| Custody.SettlementExact | packages/nouns-contracts/contracts/NounsAuctionHouse.sol:231-251 | within the integer widths, a settlement goes through if and only if the auction has begun, is over and unsettled and, when nobody bid, the house is still the minter |
| HouseSettings.SettingsExact | packages/nouns-contracts/contracts/NounsAuctionHouse.sol:176-200 | over any run owner, time buffer, reserve price and percentage are the ones the owners of the moment last gave, and the duration never changes |
| HouseCalls.CreateExact | packages/nouns-contracts/contracts/NounsAuctionHouse.sol:207-225 | within the integer widths, the creation of an auction opens one of the noun just minted, from now for the duration, when the house may mint and the seeder answers; pauses the house when the mint is refused with a message; and reverts when it panics |
| HouseCalls.SettleAuctionExact | packages/nouns-contracts/contracts/NounsAuctionHouse.sol:96-98 | within the integer widths and while the noun is held, settleAuction goes through if and only if the house is paused and the settlement can be made, and leaves exactly its effects |
| HouseCalls.SettleCurrentAndCreateExact | packages/nouns-contracts/contracts/NounsAuctionHouse.sol:87-90 | likewise settleCurrentAndCreateNewAuction: not paused, the settlement can be made and the mint does not panic; it then settles and opens or pauses |
| HouseCalls.PauseExact | packages/nouns-contracts/contracts/NounsAuctionHouse.sol:156-158 | only the owner pauses, only what is not paused, and nothing else changes |
| HouseCalls.UnpauseExact | packages/nouns-contracts/contracts/NounsAuctionHouse.sol:164-170 | within the integer widths and while the noun is held, only the owner unpauses, only what is paused; an auction opens, or the house is paused again, exactly when none is running |
| HouseCalls.DurationsExact | packages/nouns-contracts/contracts/NounsAuctionHouse.sol:207-219 | over any run every auction created ends, when created, the house's duration after it starts |
| Custody.StrandedForever | packages/nouns-contracts/contracts/NounsAuctionHouse.sol:231-251 | once the noun of a running auction is burned, no later call undoes it, and the leading bid stays in the house through every continuation |
| Settling.HeldOrStranded | packages/nouns-contracts/contracts/NounsAuctionHouse.sol:207-251 | in every reachable state the noun of a running auction is the house's or destroyed for good |
| Settling.OpenForever | packages/nouns-contracts/contracts/NounsAuctionHouse.sol:231-251 | an auction whose noun is gone, or that has no bid, none to come and no burn in reach, stays open and stays the current one through every continuation |
| Settling.SettleableExact | packages/nouns-contracts/contracts/NounsAuctionHouse.sol:231-251 | from every reachable state within the integer widths some continuation settles a running auction if and only if the house holds its noun and somebody has bid, or the house may burn or be made minter again, or a bid can still be made; where none does, every continuation leaves it open |
| Bidding.AuctionStep | packages/nouns-contracts/contracts/NounsAuctionHouse.sol:104-145 | only an accepted bid changes an auction's price, bidder or end; it comes in time, meets the reserve and the minimum, its sender and value lead, and the end is the later of itself and now plus the buffer |
| Bidding.BidExact | packages/nouns-contracts/contracts/NounsAuctionHouse.sol:104-145 | a bid is accepted if and only if it names the current noun before its end, meets the reserve price, is at least the amount plus amount times percentage over 100 rounded down, and none of this leaves 256 bits |
| Bidding.BidEffect | packages/nouns-contracts/contracts/NounsAuctionHouse.sol:130-145 | an accepted bid makes its sender and value lead, moves the end to the later of itself and now plus the buffer, and logs the bid, and an extension exactly if the end moved |
| Bidding.EveryBidMet | packages/nouns-contracts/contracts/NounsAuctionHouse.sol:119-122 | over any run every bid in the log was made by its sender in some move, at or above the reserve price then in force |
| Bidding.TieExact | packages/nouns-contracts/contracts/NounsAuctionHouse.sol:118-127 | while an auction runs and its price meets the reserve, a further bid of that very price is accepted if and only if price times percentage is below 100 |
| Bidding.PriceGrowth | packages/nouns-contracts/contracts/NounsAuctionHouse.sol:118-137 | after n accepted bids at percentage p, 100^n (p*an - 99) >= (100+p)^n (p*a0 - 99), and amounts never fall |
| Bidding.EndTimeBounded | packages/nouns-contracts/contracts/NounsAuctionHouse.sol:139-143 | an auction's end never moves back, leaves the buffer then in force after each accepted bid, and never passes its first value plus those buffers |
| Bidding.EndTimeFromCreation | packages/nouns-contracts/contracts/NounsAuctionHouse.sol:207-219 | counted from creation, it ends by start + duration + those buffers |
| TokenProjection.MoveSeen | packages/nouns-contracts/contracts/NounsAuctionHouse.sol:207-251 | each call on the house is, for the token, the one or two calls the house makes |
| TokenProjection.HouseErased | packages/nouns-contracts/contracts/NounsAuctionHouse.sol:87-251 | erasing the house from any run leaves a run of the token alone, with the same token state and the same transfers |
| TokenProjection.TokenBesideHouse | packages/nouns-contracts/contracts/NounsToken.sol:151-156 | so lists, reward schedule and votes are exact beside the auction house too |
| TokenProjection.HistoryBesideHouse | packages/nouns-contracts/contracts/NounsToken.sol:151-211 | and approvals, delegates, operators and roles are those the calls on the token add up to |
| Subgraph.Indexer.GetOrCreateAccount | packages/nouns-subgraph/src/utils/helpers.ts:4-25 | loads a copy of the account, saving a zero one first if there is none |
| Subgraph.Indexer.GetOrCreateDelegate | packages/nouns-subgraph/src/utils/helpers.ts:27-53 | loads a copy, saving a new delegate and, unless it is the zero address, a raised counter first |
| Subgraph.Indexer.Filter | packages/nouns-subgraph/src/nouns-erc-721.ts:98 | the list without every occurrence of the noun |
| Subgraph.Indexer.HandleTransfer | packages/nouns-subgraph/src/nouns-erc-721.ts:83-172 | the store after all loads and saves in their order, copies loaded early overwriting later ones |
| Subgraph.Indexer.HandleSender | packages/nouns-subgraph/src/nouns-erc-721.ts:89-130 | the sender's copy and the governance copy, changed and saved |
| Subgraph.Indexer.HandleRecipient | packages/nouns-subgraph/src/nouns-erc-721.ts:132-171 | the recipient's copy as loaded before the sender's was saved, changed and saved |
| Subgraph.Indexer.HandleAuctionCreated | packages/nouns-subgraph/src/nouns-auction-house.ts:11-30 | a fresh auction, if the noun is indexed |
| Subgraph.Indexer.HandleAuctionBid | packages/nouns-subgraph/src/nouns-auction-house.ts:32-49 | amount and bidder of a known auction |
| Subgraph.Indexer.HandleAuctionExtended | packages/nouns-subgraph/src/nouns-auction-house.ts:63-77 | end of a known auction |
| Subgraph.Indexer.HandleAuctionSettled | packages/nouns-subgraph/src/nouns-auction-house.ts:79-93 | a known auction is settled |
| Ownership.WithDelegateKeeps | packages/nouns-subgraph/src/utils/helpers.ts:27-53 | getting a delegate changes no account, noun, auction or holder counter, counts a delegate exactly when it is new and not the zero address, and saves no counters otherwise |
| Ownership.TransferEffect | packages/nouns-subgraph/src/nouns-erc-721.ts:83-172 | what any transfer leaves in any store: owner, both balances and totals, both noun lists and both holder counters |
| Ownership.TransferAgreesExact | packages/nouns-subgraph/src/nouns-erc-721.ts:83-172 | one truthful transfer keeps owners, balances, noun lists and counters in agreement with the contract if and only if sender and recipient differ |
| Ownership.TotalHeldExact | packages/nouns-subgraph/src/nouns-erc-721.ts:147-148 | over any log an account's totalTokensHeld is the number of transfers to it |
| Ownership.AccountsExact | packages/nouns-subgraph/src/utils/helpers.ts:4-25 | over any log the accounts kept are those that sent or received a token or made a bid |
| Ownership.AuctionsExact | packages/nouns-subgraph/src/nouns-auction-house.ts:11-30 | over any log an auction is kept if and only if one was created for its noun after a transfer of the noun |
| Representation.RepresentationExact | packages/nouns-subgraph/src/nouns-erc-721.ts:83-172 | over any truthful log without self-transfers, and as far as transfers alone decide, each account with tokens is its own delegate and represents exactly its nouns, and totalDelegates stays zero |
| IndexRuns.AlwaysTold | packages/nouns-contracts/contracts/base/ERC721.sol:319-389 | over any joint run the log names the owner of the moment in every transfer and replays to the contract's owners |
| IndexRuns.IndexExact | packages/nouns-subgraph/src/nouns-erc-721.ts:83-172 | over any truthful log the index agrees after every event if and only if no event is a self-transfer |
| IndexRuns.IndexMatchesContract | packages/nouns-subgraph/src/nouns-erc-721.ts:83-172 | in any run without self-transfers indexed owners and balances equal the contract's and each noun list holds exactly the owned ids once; totalTokenHolders is the number of existing tokens, and currentTokenHolders the number of the contract's holders, plus one once anything has gone to the zero address |
| IndexRuns.HolderCountExact | packages/nouns-subgraph/src/nouns-erc-721.ts:115-158 | in any run without self-transfers currentTokenHolders is the number of accounts that hold tokens if and only if nothing has gone to the zero address |
| IndexRuns.RunIndexExact | packages/nouns-subgraph/src/nouns-erc-721.ts:83-172 | run by run, the index agrees throughout if and only if the run makes no self-transfer |
| AuctionReplica.AdvanceMirrored | packages/nouns-subgraph/src/nouns-auction-house.ts:11-93 | every step keeps the replica: all auctions ever created and no others, the current one as in the house, the rest as settled |
| AuctionReplica.AuctionsMirrored | packages/nouns-subgraph/src/nouns-auction-house.ts:11-93 | in every run the replayed log equals the house's current auction in amount, bidder, start, end and settled, holds every auction ever created and no other, and keeps each earlier one settled with the winner and amount its settlement logged |
| AuctionSlice.Slice.constructor | packages/nouns-webapp/src/state/slices/auction.ts:65-67 | no auction, no bids |
| AuctionSlice.Slice.SetActiveAuction | packages/nouns-webapp/src/state/slices/auction.ts:69-73 | a new auction replaces the old and clears the bids |
| AuctionSlice.Slice.SetFullAuction | packages/nouns-webapp/src/state/slices/auction.ts:74-77 | the auction is replaced, the bids stay |
| AuctionSlice.Slice.AppendBid | packages/nouns-webapp/src/state/slices/auction.ts:78-86 | a bid for another auction or with a known hash changes nothing; another goes first and price and bidder follow the maximum |
| AuctionSlice.Slice.SetAuctionSettled | packages/nouns-webapp/src/state/slices/auction.ts:87-93 | winner and amount of the active auction, no other |
| AuctionSlice.Slice.SetAuctionExtended | packages/nouns-webapp/src/state/slices/auction.ts:94-98 | end of the active auction, no other |
| AuctionSlice.DeliverExact | packages/nouns-webapp/src/state/slices/auction.ts:48-86 | after any feed at all the bids held are, once each, the first delivered under each hash; the amount is the highest among them and the bidder that of the first of those delivered |
| AuctionSlice.Confluence | packages/nouns-webapp/src/state/slices/auction.ts:48-86 | two feeds that keep the same bids end in the same bids and amount, and in the same bidder when the highest kept bids have one sender |
| AuctionSlice.ConfluenceExact | packages/nouns-webapp/src/state/slices/auction.ts:48-86 | all feeds that keep the same bids as a given one end in the same auction if and only if the highest kept bids have one sender |
| AuctionSlice.ReceiveExact | packages/nouns-webapp/src/state/slices/auction.ts:69-98 | with extensions and settlements in the feed too, the bids are those of the bids alone; price and bidder are a settlement's unless a bid was kept after it, else the highest kept bid's; the end is the last extension's, and the auction is settled once a settlement has come |
| SliceRuns.LoggedThroughout | packages/nouns-contracts/contracts/NounsAuctionHouse.sol:87-251 | over any run the log holds the leading bid of the current auction and nothing above it, the extension its end comes from if it was extended, and its settlement exactly if it is settled |
| SliceRuns.SliceMatchesHouse | packages/nouns-webapp/src/state/slices/auction.ts:48-86 | once every logged bid has arrived, in any order and repetition, the web application shows at most the house's amount, and that amount if and only if a highest bid is the first delivered under its hash, as it is when no two bids share one |
| SliceRuns.BidderShownExact | packages/nouns-webapp/src/state/slices/auction.ts:48-86 | every such delivery that keeps a highest bid shows the house's bidder if and only if all the highest logged bids are that bidder's; if they are not, some delivery in which no two bids share a hash does not |
| SliceRuns.MixedFeedExact | packages/nouns-webapp/src/state/slices/auction.ts:69-98 | for any order of bids, extensions and settlements with all bids delivered: the amount is at most the house's, and equal if and only if it comes from a settlement or a highest bid is the first delivered under its hash; the end is never later than the house's and equal if and only if the last extension delivered gives the last logged end; the auction is settled as in the house if and only if a settlement came when there was one |
| SliceRuns.EndShownExact | packages/nouns-webapp/src/state/slices/auction.ts:94-98 | all feeds that deliver every logged bid and extension, in whatever order, end with the house's end if and only if all the extensions logged for the noun give one end |
| Seeder.WindowExact | packages/nouns-assets/src/utils.ts:44-51 | the last n hexadecimal digits of a number can be cut out and read exactly when enough digits were printed, and are then its remainder by 16^n |
| Seeder.PartExact | packages/nouns-assets/src/utils.ts:60-68 | one part by text is the part by arithmetic if the shifted hash is at least 2^40, and an exception otherwise |
| Seeder.SeedIff | packages/nouns-contracts/contracts/NounsSeeder.sol:38-54 | the seed of a hash is the one whose five parts are the remainders of neighbouring windows of 48 bits, background lowest, by the counts |
| Seeder.SeedExact | packages/nouns-assets/src/utils.ts:75-84 | the text derivation answers if and only if the hash is at least 2^232 and no count is zero; it is then the contract's seed in all five fields, each in bounds |
| Seeder.ReachExact | packages/nouns-contracts/contracts/NounsSeeder.sol:38-54 | every combination of parts comes from some 256-bit hash if and only if no count exceeds 2^48, and then from one on which both derivations give it |
| Seeder.HashForSeed | packages/nouns-contracts/contracts/NounsSeeder.sol:38-54 | an explicit 256-bit hash for any combination of parts |
| Counterexamples.TopRowLost | packages/nouns-sdk/src/image/image.ts:145-148 | a pixel in row 0 above another used row does not survive |
| Counterexamples.ShortHashHasNoText | packages/nouns-assets/src/utils.ts:44-51 | a hash of zero has a seed by arithmetic and none by text |
| Counterexamples.LoneColourClashes | packages/nouns-sdk/src/image/png-collection-encoder.ts:15-18 | a palette of one colour leaves it the index of the transparent entry |
| Counterexamples.TiedRun | packages/nouns-contracts/contracts/NounsAuctionHouse.sol:118-137 | three moves after deployment the house has taken the same amount from two accounts and names the second |
| Counterexamples.TiedNotAlone | packages/nouns-webapp/src/state/slices/auction.ts:48-86 | in that run some delivery of all bids does not show the house's bidder |
| Counterexamples.TiedBidsDisagree | packages/nouns-webapp/src/state/slices/auction.ts:48-86 | told of that run's two bids, the replica shows the first to arrive in either order, so in the house's own order the wrong one |
| Counterexamples.SharedHashRun | packages/nouns-webapp/src/state/slices/auction.ts:60-61 | a contract bids twice in one transaction; told of both bids in order, the replica shows the first amount and the house has the second |
| Counterexamples.ExtendedRun | packages/nouns-contracts/contracts/NounsAuctionHouse.sol:139-143 | a run that extends one auction twice |
| Counterexamples.SwappedExtensions | packages/nouns-webapp/src/state/slices/auction.ts:94-98 | its two extensions delivered the wrong way round leave the earlier end, though everything was delivered |
| Counterexamples.SelfTransferRun | packages/nouns-subgraph/src/nouns-erc-721.ts:83-172 | two moves after deployment a permitted transfer to oneself leaves the subgraph in disagreement |
| Counterexamples.SignedAwayTokenIsStuck | packages/nouns-contracts/contracts/base/ERC721Checkpointable.sol:124-142 | votes signed over to the zero address leave a token that cannot be moved |
| Counterexamples.ForeignBurnStrands | packages/nouns-contracts/contracts/NounsToken.sol:161-164 | three permitted calls after deployment reach an auction that can never be settled |
| Counterexamples.LockedOut | packages/nouns-contracts/contracts/NounsToken.sol:197-211 | with no bid made, the minter is moved and locked: the house holds the noun of an auction that is over and that no continuation settles |
| Counterexamples.UnsoldRun | packages/nouns-subgraph/src/nouns-erc-721.ts:132-158 | an auction without a bid is settled by a burn; one account then holds tokens and the subgraph counts two |

## Left out

- Governance (`NounsDAOLogicV1`, proxies, executor), the descriptor, token URIs and art upload: outside the four components.
- `PNGCollectionEncoder.format` and `writeToFile`: grouping by folder and file output; the palette, the stored strings and the folder lists they read are modelled.
- Decoded images with a NaN in them: a malformed field makes the whole decoding `None`.
- Hexadecimal fields with a stray character: `parseInt` would read the digits before it, the model reads none; no encoder output contains one.
- `safeTransferFrom` and `onERC721Received`: the receiver's code is outside the model; the transfer itself is `TransferFrom`.
- The events `Approval`, `ApprovalForAll`, `NounCreated`, `NounBurned`, `DelegateChanged`, `DelegateVotesChanged` and those of the setters: nothing modelled reads them.
- `seeds`, the descriptor, seeder and contract URI setters of `NounsToken`: they only store values; how the seeder answers (a seed, an error, a panic) is a parameter of a mint.
- WETH as a token, gas, and failure of the WETH deposit itself: a refused payment always goes out wrapped.
- Widths of call arguments and of account balances: values are natural numbers, and overflow is modelled where the code computes with them (minimum bid, end times, ids, votes, block numbers).
- `numCheckpoints` is the length of an account's list of checkpoints.
- Two branches of `handleTransfer` are not written: a balance just lowered by one cannot have become positive from zero, nor one just raised have become zero from positive. The log line for a negative balance is not written either.
- The subgraph's handlers for `DelegateChanged` and `DelegateVotesChanged`: what `RepresentationExact` says of delegates holds as far as transfers alone decide them.
- The websocket subscription, loading of earlier events and the other slices of the web application: the feed is an arbitrary sequence.
- `getRandomNounSeed` and `getNounData`: random choice and table lookup.
- AuctionSlice.Slice.SetFullAuction: says nothing of how a full auction relates to the bids already held, because the reducer does not relate them.
- AuctionHouseContract.NounsAuctionHouse.SafeTransferETHWithFallback: the 30 000 gas limit is not modelled; whether the recipient accepts is a parameter.
- TokenContract.NounsToken.DelegateBySig: the signature, the nonce and the expiry are not checked, because cryptography and the signer's intent are outside the model; what a valid call does is complete.
- Subgraph.Indexer.GetOrCreateDelegate: the delegate's vote counts and number of holders are not kept, because no modelled handler changes them after setting them to zero.
- Subgraph.Indexer.HandleAuctionBid: the Bid entity is not kept, because its transaction and block fields come from outside the log.
- Svg.BuildSvg: text with NaN in it is None, because no encoder output contains any.
- OnchainSvg.DecodersAgree: None stands for a NaN on one side and for a revert on the other.
- TokenRuns.HookExact: supposes block numbers and vote counts short of 32 and 96 bits; the failures beyond are in `Votes.Write` and `Votes.GiveVotes`.
- TokenRuns.TransferExact: supposes the same.
- TokenRuns.OwnerRefusedExact: supposes the same.
- Custody.SettlementExact: supposes the same.
- Settling.SettleableExact: supposes the same.
- TokenCalls.MintStatusExact: supposes the same; what a mint leaves when it goes through is proved without it.
- TokenCalls.BurnExact: supposes the same.
- TokenCalls.DelegateStatus: supposes the same; what a delegation leaves is proved without it.
- HouseCalls.CreateExact: supposes the same, and that the new end is below 2^256.
- HouseCalls.SettleAuctionExact: supposes the same, and that the noun is held; Settling.SettleableExact says what else can be.
- HouseCalls.SettleCurrentAndCreateExact: supposes the same.
- HouseCalls.UnpauseExact: supposes the same.
- SvgText.PictureReads: supposes that neither background nor colours hold a double quote, which would end the attribute; nothing in the code forbids one. So do the theorems that use it, in `OnchainImages` and `Pictures`.
