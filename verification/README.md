# A verified model of the OTRv4 session

libotr-ng runs OTRv4 conversations: an interactive key exchange makes one side the 'u' side and the
other the 't' side of a double ratchet, data messages travel over that ratchet, long messages are cut
into fragments, and on top of it two people can compare a secret without disclosing it. This project
models those parts in Dafny and proves what they promise over whole runs.

Code that changes state in place is modelled by classes and methods. Wherever its outcome is defined, each
method is proved equal to a function on values, and the run theorems are about those functions. The main
results:

- **Double ratchet.** In every state an honest session can reach, with messages dropped, reordered, lost
  to the storage limit or injected without harm, each sent and undelivered message is accepted with
  exactly its sender's keys and the very text that was sent, under an exact condition in plain numbers
  (`RatchetAgreement`, `TextArrives`, `AcceptedInNumbers`). Nothing else put together from what was seen is
  ever accepted, revealed MAC keys included (`OnlyGenuineAccepted`), and equal keys mean equal histories.
  Both sides stay in lockstep, the store of skipped keys is exact, MAC keys are conserved down to the list
  on the heap, and a second copy is never accepted (`NeverTwice`). Which rejected messages are harmless is
  characterized exactly (`HarmlessIff`), and so are what the others do (`ErasureStrands`) and when receiving
  has no defined outcome (`UndefinedIff`).
- **Key exchange.** Whenever a side completes, under any scheduling and on a network to which anyone may
  post, the two sides agree on secret, session id, root key and roles (`TAgreement`, `UAgreement`), and only
  sides that exchanged the same keys have the same ones (`CompletedBinds`); a
  crossed exchange with distinct DH keys completes with exactly one responder, and with equal ones never
  does until somebody starts over (`EqualKeysDeadlock`); and its outcome is precisely where a ratchet
  session starts (`ExchangeStartsSession` joins the two models). The bytes that are signed bind the whole
  transcript (`TagBinds`).
- **SMP.** An honest exchange reaches the same verdict on both sides, success exactly for equal secrets;
  over every sequence of inputs a success is only reported in protocol order with every proof verified.
  Every proof is specially sound, so the verdict is right about the secret a dishonest peer really used too
  (`ResponderVerdict`, `InitiatorVerdict`).
- **Proof systems.** The three-key ring signature is complete, specially sound and deniable; the batch
  proofs over the curve and modulo p are complete for every number of keys, and accepted exactly when the
  weighted errors of the keys cancel (`EcdhAcceptsIff`, `DhAcceptsIff`).
- **Fragments and codecs.** Fragments in any order, among any other traffic, give back the message at
  the last one; TLVs, data messages and client profiles survive their round trips; the bytes that are
  authenticated or signed are the bytes that were received, with the exact exception.

## How it is organised

| files | what they hold |
|---|---|
| `Keys`, `KeyManager`, `RatchetMachine` | symbolic keys and KDFs; one send and one receive as functions; the two classes that run them in place |
| `RatchetSession`, `RatchetProofs`, `RatchetReceive`, `RatchetDelivery`, `RatchetTheorems`, `RatchetGaps`, `RatchetTexts`, `RatchetAuthentic`, `RatchetRejection`, `RatchetWitness` | the key schedule both sides should follow, honest runs and their invariant, the proofs, the main results, what the limit costs, the texts that arrive, what is accepted at all, what rejected messages cost, and runs that show it happens |
| `Dake`, `DakeRun`, `DakeSecrets`, `DakeDeadlock`, `DakeMachine`, `TranscriptTag` | the key exchange, its runs, what its secrets and signatures bind, its deadlock, its class, the signed bytes |
| `Zq`, `Schnorr`, `RingSignature`, `BatchProofs` | the integers modulo a prime, and the proofs of knowledge over them |
| `Smp`, `SmpProofs`, `SmpSoundness`, `SmpRun`, `SmpSafety`, `SmpFreshness`, `SmpMachine` | the socialist millionaires' protocol |
| `LinkedList`, `MacReveal`, `MacKeyLedger` | the list on the heap, the MAC keys it stores and reveals, and the key manager together with it |
| `FragmentFormat`, `Fragmenter`, `Reassembly`, `FragmentRun`, `FragmentMachine` | cutting, printing, parsing and reassembling fragments |
| `Bytes`, `Tlv`, `DataMessageCodec`, `ClientProfileCodec`, `ValidationCache` | codecs and the cached validity of profiles |

Conventions. KDFs, DH and the ring signatures of the session models are constructors of a free datatype
(DH over an unordered pair of keys), so equal keys mean equal derivations. The group of the algebraic
models is Z_q with generator 1, whose laws are proved in `Zq`; a scalar is its residue, primality of q is
a precondition, and hash functions are arbitrary. The DH batch proofs compute modulo p, for any prime p
and any generator of finite order (the 3072-bit group of section 4 of RFC 3526 in the library). Random
values are parameters. Unsigned 8-, 16-, 32- and 64-bit arithmetic is written out where it can wrap.

## What the code does and its documentation does not say

Each of these is a proved statement about the code as it is.

- Nothing checks that the own DH private half is still there when an exchange on a received message needs
  it. The null pointer goes into the modular exponentiation, after which nothing is defined. `UndefinedIff`
  says exactly when. It takes no forgery: a second copy of an old message does it to a side that is about
  to make the next exchange (`NeverTwice` says when, `DuplicateIsUndefined` is a run of three messages). By
  then the elliptic-curve scalar has been erased to zero too; using that is defined, and gives the identity
  point.
- An accepted message sets the peer's ratchet key to that message's key even when its keys came from the
  store. After a late message of a superseded ratchet the next message of the current chain is taken for
  a new ratchet and never accepted: `LateMessageHarmlessIff` gives the exact condition, `LateOccurs` a run
  in which the outcome is not even defined. Honest runs therefore exclude accepting such a message.
- A gap beyond the limit stores nothing and still succeeds. A new ratchet is entered all the same, and the
  missed messages of the old one are never accepted through every honest continuation (`GapLosesChain`; a
  run in `GapOccurs`).
- Entering a ratchet with a new DH exchange erases the own private half before the message is known to be
  authentic. A rejected message does so exactly when it is not found in the store, comes under a key that
  is not the peer's current one, and the ratchet id is divisible by three with the half still there
  (`RejectedState`). A side that waits for the ratchet then accepts no message of it, genuine ones
  included, whatever else it sends and receives: receiving one is not defined (`ErasureStrands`;
  `ErasureOccurs`). With an empty store every other rejected message is harmless. With a store that is not
  empty every rejection frees the list that goes on being used, so none is (`HarmlessIff`), and no result
  about runs admits it.
- When the TLVs of a message cannot be handled its keys are used up, but its MAC key is not stored for
  revealing, and 'u' does not become ready to send (`MacKeyConservation` counts these).
- The brace key is wiped after each use, so two of three ratchets derive it from a buffer of zeros. Both
  sides agree on it nevertheless.
- With equal DH public keys a crossed exchange leaves two responders, whom no deliveries and nothing that
  others post complete, whatever was sent before (`EqualKeysDeadlock`); a new offer does
  (`RestartEndsDeadlock`). The halves of the session id are complementary exactly when the keys differ.
- phi holds the instance tags truncated to 16 bits. Both sides still compute the same phi. The session string
  in it runs identifiers and password together without a separator, so that different identifiers can give
  one string (`SessionStringAmbiguous`); with identifiers of fixed lengths it binds them
  (`SessionStringBinds`).
- The 32-bit sum of receive counter and limit can wrap around. Then only messages up to the counter, and
  those below what is left of the sum, are accepted (`AcceptedWrapping`).
- The buffers of a client profile leave out the 4 bytes of the versions' length, and the one of the signed
  body the 4 bytes of the number of fields too, while nothing limits the DSA key a received profile brings
  (`EveryKeyLength`). With a transitional signature (and without one) the signed body is written past its
  buffer from 779 (821) bytes of DSA key on, the form with metadata from 783 (825); plain serialization is
  refused from 783 (825) and writes past its buffer from 897 (939), where the remaining size it computes
  wraps around (`SignedBodyFitsIff`, `MetadataFitsIff`, `SerializeOutcome`). The round trips are about what
  is returned.
- A profile whose serialization is refused makes the tag that is signed a single byte instead of an error;
  `TagByKeyLength` says exactly when.
- The check that exactly one key of a ring is the signer's is an exclusive or, which lets three equal keys
  through; such a signature verifies only for one value of the challenge (`Authenticate`).
- Starting SMP in mid-protocol sends an abort but does not reset the own state
  (`BusyStartDesynchronizes`).
- A maximal fragment size below the header's wraps around and gives one over-long fragment
  (`TooSmallMaximum`), and one of exactly the header's divides by zero. The total goes through an int, so of
  a message that needs 2^32 pieces and a few more only those few are sent: the pieces make up the message
  exactly when 65535 of them can (`FragmentsFit`). A fragment with an index out of range clears the identifier of its context too, so
  a transfer with identifier zero can be disturbed: exactly when a started one is found behind the context
  that is reset (`DisturbsIff`, `ZeroIdentifierDisturbed`). All other traffic leaves it alone.
- A side of SMP keeps the last message 1 it accepted for good and can answer it again after the exchange has
  concluded; `RequestIsFreshIff` says when a success is for a request that is still open.
- The MAC of a data message is checked over the re-serialized body. That is the received bytes exactly
  when the DH key came without leading zero bytes (`ReserializedIsReceived`).
- The length of a padding TLV is 16 bits, so a granularity above 65536 no longer hides the text length
  (`LargeGranularityLeaks`).
- The validation cache keeps its first answer for every instance tag and key, and keeps an expired profile
  rejected when the clock is set back (`CacheAgreesIff`, `ClockSetBack`).

## Model

| member | source | states |
|---|---|---|
| RatchetTheorems.HonestRunKeepsInv | src/key_management.c:690-894 | every honest run, of any sends, of deliveries with drops, reordering, failing TLVs and chains lost to the storage limit, and of any other messages that are rejected without harm, keeps the session invariant: counters, own and peer keys, chains, store, log and MAC keys all follow the common key schedule |
| RatchetTheorems.RatchetAgreement | src/otrng.c:1975-2096 | in every reachable state each sent message, neither delivered nor lost, that no guard on its own chain keeps out is accepted with exactly the encryption, MAC and extra keys its sender derived, and its payload |
| RatchetTexts.TextArrives | src/otrng.c:1975-2096 | after every honest run, accepting a message sent and neither delivered nor lost hands on the text its sender sent as the message of that number |
| RatchetTexts.TextsCarried | src/protocol.c:221-298 | after every honest run the n-th message of a side carries the n-th text it sent, and there are as many messages as texts |
| RatchetTexts.EveryTextIsSent | src/protocol.c:221-298 | every text sent is in a message of its number |
| RatchetAuthentic.OnlyGenuineAccepted | src/otrng.c:2016-2096 | after any honest run a message put together from what was seen, authenticators of messages and revealed MAC keys, with any body and delivered to either side, is accepted only if it is one the other side sent and this side has neither accepted nor lost, and hands on that text |
| RatchetAuthentic.RevealedKeysOpenNothing | src/protocol.c:267-282 | neither side ever accepts anything under a MAC key that has been revealed |
| RatchetAuthentic.AcceptedKeyIsFresh | src/key_management.c:1108-1184 | whatever a side accepts under the key of a sent message, that message is of the other side and neither accepted nor lost before |
| RatchetAuthentic.AcceptedIsAuthentic | src/otrng.c:2046-2105 | acceptance means that authenticator and cipher text were made over this body with the derived keys, of which the MAC key is stored and the extra key kept |
| RatchetAuthentic.ExtraKeyHeld | src/key_management.c:955-1014 | the sender holds the extra key of the message it sent last |
| RatchetAuthentic.KeysDistinct | src/key_management.c:902-1014 | no two messages of a session share an encryption, MAC or extra key |
| RatchetAuthentic.PurposesDistinct | src/key_management.c:902-1014 | no MAC key is an encryption, extra, chain or root key of the session, nor an extra key an encryption or chain key |
| RatchetAuthentic.UsagesDistinct | src/key_management.c:469-562 | no usage byte of the key derivations serves two purposes |
| RatchetAuthentic.HistoryBinds | src/key_management.c:521-562 | equal root keys of two sessions mean equal first root keys and the same exchanges, on the curve for every ratchet and modulo p for every third |
| RatchetAuthentic.SharedKeySharesHistory | src/key_management.c:690-740 | two sessions that share a message key share place and whole history up to it |
| RatchetGaps.AcceptedIff | src/key_management.c:1016-1031 | in every reachable state a sent, undelivered message is accepted if and only if it is not lost, and its key is stored, it is the next of its chain, or the guard on its own chain does not fire |
| RatchetGaps.AcceptedInNumbers | src/key_management.c:1025-1033 | in numbers: a sent, undelivered message is accepted if and only if it is not lost and is of a ratchet before the last one received from or at most the limit beyond the receive counter of its chain |
| RatchetGaps.AcceptedWrapping | src/key_management.c:1025-1033 | where counter and limit add up beyond 32 bits only the messages up to the counter, and those below what is left of the sum, are accepted |
| RatchetGaps.LostInNumbers | src/key_management.c:1025-1033 | an honest delivery loses messages exactly when it opens a ratchet with more than the limit outstanding on the old chain, and then all of those |
| RatchetGaps.GapLosesChain | src/key_management.c:1025-1031 | when the guard fires on the superseded chain the new ratchet is entered without storing anything, the session stays a reachable one, and no missed message of the old ratchet is accepted there or through any honest continuation |
| RatchetGaps.GoneForever | src/key_management.c:1108-1184 | after every honest continuation of every honest run a message once delivered or lost is not accepted, and its outcome is undefined exactly when the side is about to make a new exchange and did not last receive from that ratchet |
| RatchetWitness.GapOccurs | src/key_management.c:1025-1031 | an honest run with limit one after which the first message of ratchet 2 loses three of ratchet 0 |
| RatchetGaps.ChainKeysIff | src/key_management.c:1145-1184 | on the right chain the right message keys come out exactly when the message is the next one or the guard lets the storing loop run |
| RatchetTheorems.Lockstep | src/key_management.c:742-780 | in every reachable state the ratchet ids differ by at most one, equal ids mean equal root keys, a side that may open a ratchet has the other's id and parity, and on every third ratchet the receiver still holds the private half of the DH key the sender used |
| RatchetTheorems.StoreExactness | src/key_management.c:1033-1102 | the store holds one entry, with the sender's keys, for each message passed over and neither delivered nor lost, nothing else, and no pair of ratchet key and id twice |
| RatchetTheorems.MacKeyConservation | src/protocol.c:267-282 | over every honest run the MAC keys of accepted messages are, as a multiset, those revealed, those still stored and those of messages whose TLVs could not be handled |
| RatchetTheorems.FirstMessageReveals | src/protocol.c:267-282 | the first message of a ratchet reveals every stored MAC key and empties the list; any other message reveals none |
| RatchetTheorems.StoreGrowthBounded | src/key_management.c:1016-1102 | one receive adds at most twice the limit to the store, whatever the message says |
| RatchetTheorems.NeverTwice | src/otrng.c:2016-2060 | after any honest run a message already accepted, or lost, is never accepted: it is rejected, with counters, root and chain keys and the peer's keys as they are, except that the outcome is undefined exactly when the side is about to make a new exchange and did not last receive from that ratchet |
| RatchetTheorems.UndefinedIff | src/dh.c:242-264 | receiving is undefined, a null private half going into the modular exponentiation unchecked, exactly for a message taken for the start of a ratchet with a new exchange when the own half is gone |
| RatchetWitness.DuplicateIsUndefined | src/key_management.c:469-500 | an honest run of three messages after which a second copy of the first one has an undefined outcome |
| RatchetTheorems.RejectedState | src/otrng.c:2016-2060 | a rejected message, whatever it says, changes at most the skipped keys and the own DH private half, the latter exactly when it is taken for the start of a ratchet with a new exchange and the half is there; and the list of skipped keys has been freed exactly when it was not empty |
| RatchetRejection.FreedHeld | src/otrng.c:2046-2060 | the list that has been freed held the old keys without the one found, or with those stored on the way behind |
| RatchetRejection.HarmlessIff | src/key_management.c:762-771 | a rejected message leaves no freed list in use and a session an honest run reaches if and only if the store is empty and it does not erase the private half of a side that waits for the ratchet; and with an empty store nothing at all changes if and only if nothing is erased |
| RatchetRejection.ErasureStrands | src/key_management.c:769-771 | after such an erasure, whatever the side sends and receives while that is defined, it accepts no message of the ratchet it was waiting for: receiving one is undefined |
| RatchetRejection.BadAuthenticatorErases | src/otrng.c:2027-2060 | a message whose authenticator is under no derived key is accepted in no state and rejected exactly where its outcome is defined, and by a side that waits for a ratchet with a new exchange never without harm |
| RatchetWitness.ErasureOccurs | src/key_management.c:769-771 | such a message exists right after the key exchange |
| RatchetTheorems.LateMessageHarmlessIff | src/otrng.c:2016-2020 | accepting a stored message leaves the current chain usable if and only if the message's ratchet key is the peer's current one; otherwise the next message of the chain is rejected, or undefined exactly when this side is to make the next exchange |
| RatchetWitness.LateOccurs | src/key_management.c:168-201 | for every limit an honest run after which accepting a late message makes the next message of the current chain, acceptable before, undefined |
| RatchetTheorems.RotationRejects | src/key_management.c:1186-1215 | a message of an earlier ratchet taken for the start of a new one is never accepted, whatever gap it announces |
| RatchetTheorems.CurrentCopyRejected | src/key_management.c:1145-1184 | a message below the receive counter of the current chain and not in the store is rejected |
| RatchetTheorems.LaterRootNeverMatches | src/key_management.c:817-836 | no chain that starts from a later root key yields the MAC key of an earlier ratchet's message |
| RatchetProofs.SendOpensRatchet | src/protocol.c:221-298 | a side whose turn it is opens exactly the next ratchet of the schedule with message 0, reveals its stored MAC keys and keeps its part of the invariant |
| RatchetProofs.SendContinuesRatchet | src/protocol.c:221-298 | any other send produces the next message of the ratchet the side owns, with the scheduled keys, and reveals nothing |
| RatchetProofs.SendKeepsInv | src/protocol.c:221-298 | a send by either side keeps the whole session invariant, the other side's part included |
| RatchetReceive.EnteredKeys | src/key_management.c:690-740 | the receiver of a new ratchet mixes the same secrets as its sender did and reaches the same root and chain key |
| RatchetReceive.ReceiveStored | src/key_management.c:1108-1143 | a wanted message of any ratchet is accepted from the store with the sender's keys; its entry goes, counters and chains stay |
| RatchetReceive.ReceiveCurrent | src/key_management.c:1145-1184 | a message at or beyond the receive counter is accepted; the keys of those skipped are stored, and the chain moves just past it |
| RatchetReceive.ReceiveNew | src/otrng.c:2022-2045 | the first message to arrive of the awaited ratchet is accepted; the rest of the old chain, if it fits, and the skipped start of the new one go to the store, the scalar is erased, and on every third ratchet the DH private half too |
| RatchetReceive.FoundIffWanted | src/key_management.c:1108-1143 | a lookup in the store succeeds exactly for the messages that are missing |
| RatchetDelivery.DeliveryAccepted | src/otrng.c:2016-2096 | any message neither delivered nor lost that no guard on its own chain keeps out, late ones included, is accepted with the scheduled keys |
| RatchetDelivery.DeliveryKeepsReceiver | src/key_management.c:140-201 | every delivery of an honest run is accepted and leaves the receiver's keys, counters, chains, store and MAC keys as the invariant demands |
| Keys.ChainAtInjective | src/key_management.c:902-924 | chain keys never repeat: equal ones are at the same place of a chain started from the same root key and secret |
| RatchetMachine.ReceivingRatchet.StoreEncKeys | src/key_management.c:1016-1102 | the guard, then the storing loop, in place, give the state the run theorems use |
| RatchetMachine.ReceivingRatchet.GetSkippedKeys | src/key_management.c:1108-1143 | the first matching entry is taken out and yields its keys; with none nothing changes |
| RatchetMachine.RatchetKeys.RotateSending | src/key_management.c:742-780 | the whole new state of a sending rotation |
| RatchetMachine.RatchetKeys.Send | src/protocol.c:221-298 | one send in place is the Send of the run theorems: the message, its keys and every field |
| RatchetMachine.RatchetKeys.RotateReceiving | src/key_management.c:742-780 | rotation changes the temporary ratchet, and in the key manager only the DH private half, on every third ratchet; nothing is promised when that half is needed and gone |
| RatchetMachine.RatchetKeys.DeriveKeys | src/otrng.c:2022-2045 | the three ways to a message's keys, in the source's order, with the state each leaves, or the exchange without a private half |
| RatchetMachine.RatchetKeys.Receive | src/otrng.c:1975-2136 | one receive in place is the Receive of the run theorems: when it is defined, verdict, payload, keys and every field, on acceptance and on rejection; the MAC key is stored only when the TLVs are handled |
| DakeRun.TAgreement | src/otrng.c:1783-1849 | whenever a side completes as 't', on a network where anyone posts any offer and any signature seen before or over a ring with a key of theirs, the other side had sent the accepted signature when it completed as 'u' with the same session id and root key, 't' holds the public halves of its keys and what the signed transcript determines, and the halves shown are complementary exactly when the DH keys differ |
| DakeRun.UAgreement | src/otrng.c:1665-1759 | whenever a side completes as 'u' on such a network, the other side had sent the accepted signature while it waited as the responder with the same shared secret and session id |
| DakeSecrets.OthersPost | src/otrng.c:1502-1849 | what others can post in these runs: any offer, and Auth-R and Auth-I with any signature seen before or over a ring with a key of theirs |
| DakeSecrets.GeneratedBinds | src/key_management.c:564-654 | two sides, of one conversation or of two, generate the same session id if and only if their key pairs on the curve and modulo p are the same |
| DakeSecrets.CompletedBinds | src/key_management.c:564-688 | two completed sides have the same session id, or the same first root key, if and only if the same keys were exchanged |
| DakeSecrets.SameSessionSameKeys | src/otrng.c:1783-1849 | in any two runs two sides that complete as 't' with one session id exchanged the same keys |
| DakeSecrets.DerivedApart | src/key_management.c:607-688 | session id, first root key and first ratchet keys each tell secrets apart, and are never one another |
| DakeSecrets.AuthRBinds | src/otrng.c:1625-1759 | an Auth-R signature is accepted by one party only, with one set of own and received keys and one phi |
| DakeSecrets.AuthIBinds | src/otrng.c:1783-1849 | an Auth-I signature likewise |
| DakeSecrets.SignaturesApart | src/dake.c:688-802 | a signature accepted in an Auth-R has no effect in an Auth-I |
| DakeSecrets.EitherSignsAuthR | src/dake.c:688-802 | of the ring of an Auth-R the responder holds one key, its long-term key, and the initiator the two others |
| DakeSecrets.EitherSignsAuthI | src/dake.c:688-802 | of the ring of an Auth-I the initiator holds its long-term key and the responder the two others |
| DakeSecrets.OnlyValidKeys | src/otrng.c:1502-1533 | received keys that fail the checks have no effect |
| DakeSecrets.OnlyWhenWaiting | src/otrng.c:1665-1849 | an Auth-R or an Auth-I has no effect in a state that does not wait for it |
| DakeSecrets.FreshExchangeCompletes | src/otrng.c:304-340 | an exchange from the start completes in agreement with an offer and three deliveries |
| DakeSecrets.FreshKeysDistinct | src/key_management.c:257-305 | the four pairs generated together are distinct and new |
| DakeRun.CrossedIdentities | src/otrng.c:1477-1491 | of two crossed offers, a side becomes the responder exactly when its DH key is not the higher one; with equal keys both do |
| DakeDeadlock.EqualKeysDeadlock | src/otrng.c:1477-1500 | from every reachable state, whatever happened before: after crossed offers with equal DH keys no run of deliveries and of posts by others, in which neither side starts over, completes the exchange on either side |
| DakeDeadlock.DeadlockLasts | src/otrng.c:1493-1560 | two waiting responders for whose present keys no Auth-I was ever posted stay so through every run of deliveries and posts by others |
| DakeDeadlock.DifferentKeysComplete | src/otrng.c:1477-1491 | after crossed offers with different DH keys two more deliveries complete it, the lower key as 't' |
| DakeDeadlock.RestartEndsDeadlock | src/otrng.c:304-340 | once one of the two makes a new offer, three deliveries complete the exchange |
| DakeRun.OfferIgnored | src/otrng.c:1477-1491 | the side with the higher DH key drops the other side's offer, whatever else it says, and changes nothing |
| DakeRun.AnsweredCompletes | src/otrng.c:1665-1849 | from any reachable state an answered offer completes with two more deliveries, in agreement |
| DakeRun.CrossedExchangeCompletes | src/otrng.c:1436-1491 | a crossed exchange with distinct DH keys completes in four deliveries, the lower key answering, in agreement |
| DakeRun.ExchangeStartsSession | src/key_management.c:564-688 | the states two agreeing sides hold are an initial state of the ratchet session, so its theorems hold after every completed exchange |
| DakeRun.RunKeepsInv | src/otrng.c:1502-1560 | every run of starts, deliveries and posts by others, in any order and repetition, keeps the invariant of the exchange; an exchange without its private half is not among what can happen |
| DakeRun.ReceiveMessageInv | src/key_management.c:564-592 | in every reachable state every message on the network, genuine or not, has a defined outcome: no shared secret is computed without its private half |
| DakeRun.OnlyAuthIEncrypts | src/otrng.c:1783-1849 | only an Auth-I signed over the side's own transcript completes it as 't' |
| DakeRun.OnlyAuthRCompletes | src/otrng.c:1625-1663 | only an Auth-R signed over the side's own transcript completes it as 'u' |
| Dake.PhiAgreement | src/serialize.c:202-219 | both sides compute the same phi, whatever order each lists tags and identifiers in |
| DakeSecrets.PhiBinds | src/serialize.c:202-219 | phi is the same exactly for the same two truncated tags, in either order, and the same session string |
| DakeSecrets.PhiInOrder | src/serialize.c:202-219 | the smaller truncated tag comes first |
| DakeSecrets.SessionStringBinds | src/otrng.c:578-609 | for identifiers of the same lengths the session string is the same exactly for the same identifiers, in either order, and the same password |
| DakeSecrets.SessionStringAmbiguous | src/otrng.c:578-609 | two conversations with different identifiers and one session string |
| DakeSecrets.StrLessIs | src/otrng.c:591-600 | the order is decided at the first difference, and a string comes after what it begins with |
| DakeMachine.Conversation.GenerateSharedSecret | src/key_management.c:564-654 | secret, session id and half, the private halves erased, whenever the DH private half is there; nothing is promised without it |
| DakeMachine.Conversation.ReceiveIdentity | src/otrng.c:1436-1560 | an offer in each state: refused by the checks of its keys, answered, ignored, or the own offer given up |
| DakeMachine.Conversation.ReceiveAuthR | src/otrng.c:1665-1759 | the whole outcome of an Auth-R, refused or accepted, or undefined without the DH private half |
| DakeMachine.Conversation.ReceiveAuthI | src/otrng.c:1783-1849 | the whole outcome of an Auth-I, refused or accepted |
| DakeMachine.Conversation.Receive | src/otrng.c:1502-1849 | the class takes exactly the steps the run theorems are about |
| TranscriptTag.TagBinds | src/dake.c:688-850 | for profiles that can be serialized two tags are equal exactly when kind, profiles, points, DH keys and phi are, unless the KDF collides on them |
| TranscriptTag.SomethingToSign | src/dake.c:688-850 | there are exchanges to which that applies, with every point that decodes |
| TranscriptTag.TagByKeyLength | src/dake.c:718-802 | by the lengths of the two DSA keys exactly: when the tag is its one leading byte whatever else the exchange holds, when a buffer is overrun, and when it is the whole transcript |
| TranscriptTag.UsagesApart | src/dake.c:804-850 | no use of the KDF in an Auth-R tag is one in an Auth-I tag |
| TranscriptTag.BuildInteractiveRsignTag | src/dake.c:804-850 | the bytes written through the cursor are the tag, and the longest fits the buffer |
| Zq.InverseIs | src/prekey_proofs.c:368-369 | in Z_q every non-zero residue has the computed inverse, q being prime |
| Zq.NoZeroDivisors | src/smp_protocol.c:1236-1262 | a product is zero modulo a prime exactly when a factor is |
| Zq.PrimeIs | src/prekey_proofs.c:368-369 | a prime is a number above 1 with no factors but 1 and itself |
| Schnorr.ExtractIsKey | src/auth.c:309-329 | two answers to one commitment under different challenges give the discrete logarithm of the key |
| RingSignature.Authenticate | src/auth.c:193-298 | a signature is made exactly when one key of the ring, or all three, are the signer's; with one it verifies under every hash function, with three exactly when the challenge is the sum of the random shares |
| RingSignature.CommitmentMatches | src/auth.c:46-87 | the verifier recomputes the commitment the signer hashed, at the signer's position and at the simulated ones |
| RingSignature.AllSum | src/auth.c:57-71 | when all three absorb it, they add up to it only if it was the sum of the random shares |
| RingSignature.HowOften | src/auth.c:193-240 | the condition to sign is that the own key is in the ring once, or three times |
| RingSignature.SpecialSoundness | src/auth.c:166-191 | two accepted signatures on one ring with equal recomputed commitments and different challenges determine the private key of a position whose shares differ |
| RingSignature.AnyKeyCouldHaveSigned | src/auth.c:193-298 | every signature that verifies is one that the holder of any single key of the ring produces with some coins |
| BatchProofs.EcdhGenerate | src/prekey_proofs.c:35-105 | the challenge is of the commitment and keys, the answer the weighted sum of the private keys, and for matching keys the proof verifies, for every number of keys |
| BatchProofs.EcdhVerify | src/prekey_proofs.c:107-205 | the loop over pairs with an odd tail decides the equation over the plain weighted sum |
| BatchProofs.PairIsTwoSteps | src/prekey_proofs.c:135-164 | one double-scalar step is two single ones |
| BatchProofs.WrongKeysShiftTheCommitment | src/prekey_proofs.c:107-205 | whatever the keys, the prover's commitment is recomputed exactly when the weighted errors of the public keys cancel |
| BatchProofs.EcdhAcceptsIff | src/prekey_proofs.c:107-205 | whatever the public keys, a proof made for the private ones is accepted if and only if the weighted errors of the public keys cancel, for a hash without another commitment of that challenge |
| BatchProofs.OneWrongKeyIsNoticed | src/prekey_proofs.c:107-205 | with one wrong key the proof is accepted if and only if the weight of that key is zero modulo q |
| BatchProofs.DhGenerate | src/prekey_proofs.c:228-318 | the same modulo p: for public keys that are powers of the private ones the proof verifies |
| BatchProofs.DhVerify | src/prekey_proofs.c:320-410 | the product loop and the modular inverse decide the proof equation |
| BatchProofs.DhAcceptsIff | src/prekey_proofs.c:320-410 | modulo p such a proof is accepted if and only if the weighted product of the public keys is that of the right ones |
| BatchProofs.DhOneWrongKeyIsNoticed | src/prekey_proofs.c:320-410 | and with one wrong key if and only if its power to its weight is the right one |
| BatchProofs.PowReduced | src/prekey_proofs.c:300-314 | the answer may be reduced modulo q since g to the q is 1 |
| BatchProofs.PowOne | src/prekey_proofs.c:348-365 | the power to one is the residue, to zero it is one |
| BatchProofs.ProductIsPower | src/prekey_proofs.c:348-365 | the product of the public keys to their weights is g to the weighted sum of the private keys |
| BatchProofs.AnswerUnblinds | src/prekey_proofs.c:368-369 | multiplying by the inverse of the product gives the commitment back |
| SmpRun.ExchangeDecidesEquality | src/smp_protocol.c:1069-1262 | an honest exchange of four messages completes, both sides return to the start, and both report success exactly when the secrets are equal or one of the four private exponents is zero modulo q |
| SmpProofs.HonestMessage1 | src/smp_protocol.c:149-195 | an honest message 1 passes its two proofs |
| SmpProofs.HonestMessage2 | src/smp_protocol.c:373-495 | an honest message 2 passes its three proofs |
| SmpProofs.HonestMessage3 | src/smp_protocol.c:730-855 | an honest message 3 passes its three proofs |
| SmpProofs.HonestMessage4 | src/smp_protocol.c:1069-1124 | an honest message 4 passes its proof |
| SmpSoundness.Message1Shows | src/smp_protocol.c:300-350 | two messages 1 with one commitment that do not lead to an error under different challenges give away the private exponent, for each of the two proofs |
| SmpSoundness.Message2Shows | src/smp_protocol.c:613-714 | message 2 likewise: both exponents, and the one secret that Pb and Qb blind |
| SmpSoundness.Message3Shows | src/smp_protocol.c:949-1056 | message 3 likewise: the secret that Pa and Qa blind, and the one exponent of G3a and Ra |
| SmpSoundness.Message4Shows | src/smp_protocol.c:1173-1227 | message 4 likewise: the one exponent of G3b and Rb |
| SmpSoundness.ResponderVerdict | src/smp_protocol.c:1236-1262 | against any peer that can answer twice: the responder reports success if and only if the secret the proofs give away is its own, or an exponent is zero |
| SmpSoundness.ProvidedHolds | src/smp.c:282-314 | an answered message 1 leaves the responder in the state that verdict is about |
| SmpSoundness.InitiatorVerdict | src/smp_protocol.c:1236-1262 | the initiator likewise, about the secret that message 2 blinds |
| SmpSoundness.AnsweredWaits | src/smp_protocol.c:1326-1400 | an accepted message 2 leaves the initiator in the state that verdict is about |
| SmpProofs.SharedGenerator | src/smp_protocol.c:373-410 | both sides derive the same generators |
| SmpProofs.PairRecommits | src/smp_protocol.c:613-714 | the two-generator proof recomputes its commitment |
| SmpProofs.ComparisonDecides | src/smp_protocol.c:1236-1262 | the final comparison of honest values, on either side, decides equality |
| SmpProofs.VanishesIff | src/smp_protocol.c:1236-1262 | the compared value vanishes exactly for equal secrets or a zero exponent |
| SmpSafety.SuccessOnlyInOrder | src/smp.c:67-154 | over every sequence of starts, answers and TLVs, success is reported only by a side that took the steps of its role in order, every proof verified and the final comparison met; the message 1 answered may date from before an earlier conclusion |
| SmpFreshness.RequestIsFreshIff | src/smp_protocol.c:1288-1291 | for every success on a message 3: nothing has concluded between the message 1 behind it and the success if and only if the request was still open when the answer was given |
| SmpFreshness.AnsweredAgain | src/smp.c:282-314 | a side at the start that has ever accepted a message 1 can answer it again |
| SmpSafety.ConcludingReturnsToStart | src/smp.c:67-154 | every success, failure, error and abort leaves the side expecting message 1 |
| SmpSafety.WaitingStep | src/smp_protocol.c:1264-1518 | a waiting state is entered only by its one step and otherwise kept as it is or left |
| SmpSoundness.UnexpectedAborts | src/smp.c:67-154 | a message that is not the one expected aborts the exchange on both sides |
| SmpSoundness.QuestionArrives | src/smp_protocol.c:1264-1295 | the question of message 1 is the one the other side is asked |
| SmpSafety.FreshExchangeAfterConclusion | src/smp.c:67-154 | after any concluding events on the two sides a fresh exchange decides equality again |
| SmpSafety.BusyStartDesynchronizes | src/smp.c:180-231 | a start in mid-protocol resets the peer but not the own state, and the peer's next message 1 is aborted |
| SmpMachine.SmpProtocol.Initiate | src/smp.c:180-231 | the start in place: message 1, or an abort when busy |
| SmpMachine.SmpProtocol.ProvideSecret | src/smp.c:282-314 | the answer in place: message 2, or nothing when message 1 is not the one expected; undefined exactly when no message 1 has ever come |
| SmpMachine.SmpProtocol.Process | src/smp.c:67-154 | the class takes exactly the steps the run theorems are about |
| LinkedList.GetLast | src/list.c:117-130 | the last node, or null for the empty list |
| LinkedList.Add | src/list.c:102-115 | one new node at the end; all others and the contents stay |
| LinkedList.RemoveElement | src/list.c:157-181 | exactly the wanted node is unlinked, the order kept; a node not in the list changes nothing |
| LinkedList.Len | src/list.c:183-195 | the number of nodes that have data |
| LinkedList.NodesUnique | src/list.c:117-195 | a head pointer determines its list |
| MacReveal.SerializeOldMacKeys | src/serialize.c:177-200 | all keys, last stored first, 64 bytes each, in an exactly filled buffer; none for the empty list |
| MacReveal.MacKeyStore.Store | src/otrng.c:2098-2105 | the stored keys grow by the key of the accepted message, at the end of the list |
| MacReveal.MacKeyStore.RevealAndForget | src/protocol.c:267-282 | every stored key is revealed, and none stays |
| MacReveal.RevealedBlock | src/serialize.c:177-200 | block i of the revealed bytes is the i-th stored key from the end |
| MacKeyLedger.Ledger.Send | src/protocol.c:267-282 | a send of the key manager with its list on the heap: the step of the run theorems, and the bytes revealed are those of the keys in the message, none when there are none |
| MacKeyLedger.Ledger.Receive | src/otrng.c:2098-2105 | a receive likewise: the list goes on holding, byte for byte, the keys the run theorems count, and grows only when the TLVs are handled |
| FragmentRun.FragmentRoundTrip | src/fragment.c:102-327 | the fragments of a non-empty comma-free message of at most 65535 pieces, each once, in any order and among any traffic that does not disturb them, repeated fragments included, hand on nothing until the last one and then exactly the message |
| FragmentRun.Reassembled | src/fragment.c:226-327 | repeated fragments among them are refused, each other input has the result it would have had alone, and in the end the transfer has left nothing and the contexts of other identifiers are untouched |
| FragmentRun.RepeatIsRefused | src/fragment.c:302-304 | a fragment that comes again before the last one has come is refused |
| Reassembly.OtherTextPasses | src/fragment.c:241-245 | a message that does not begin like a fragment is handed on as it is, and no context changes |
| Reassembly.PrintedFed | src/fragment.c:247-285 | a printed fragment is ignored when it is for another instance, refused without a piece, and else placed under its identifier as what it says |
| Reassembly.OtherTotalRefused | src/fragment.c:290-292 | a fragment that announces another total is refused and changes nothing |
| FragmentRun.CutIsReadable | src/fragment.c:144-182 | what is cut can be read back, and its pieces make up the message |
| FragmentRun.CutFragments | src/fragment.c:102-182 | what is sent is, fragment by fragment, the printed pieces of the transfer, each no longer than the maximum |
| FragmentRun.FullAtLast | src/fragment.c:312-324 | the count reaches the total exactly with the last outstanding fragment |
| FragmentRun.ZeroIdentifierDisturbed | src/fragment.c:285-288 | from the empty table, the first of two fragments of two transfers and one reset, after which the last fragment of the transfer with identifier zero hands on nothing |
| FragmentFormat.FormatRead | src/fragment.c:102-126 | a printed fragment is scanned back to its header, and to its piece exactly when that is non-empty and without comma |
| FragmentFormat.NumberRead | src/fragment.c:252-255 | a number printed at full width is read back, whatever follows |
| FragmentFormat.NoNumber | src/fragment.c:252-255 | where no digit stands no number is read |
| FragmentFormat.PieceRead | src/fragment.c:252-265 | the piece is read exactly when it is non-empty and without comma |
| FragmentFormat.UnclosedUnread | src/test/units/test_fragment.c:118-118 | a piece that no comma closes is not read |
| FragmentFormat.PrintedForm | src/test/units/test_fragment.c:76-76 | the exact string of the first fragment the tests use |
| FragmentFormat.HexForm | src/fragment.c:102-126 | hexadecimal digits are printed in lower case |
| Fragmenter.FragmentMessage | src/fragment.c:144-182 | for every maximum and length of message: undefined exactly where the subtraction overflows or the division is by zero, an error when the total is not between 1 and 65535 or a length is negative as an int, else the numbered fragments in order |
| Fragmenter.CutIsFragments | src/fragment.c:165-177 | as long as the lengths fit an int, the fragments cut are those of the pieces, numbered in order |
| Fragmenter.FragmentsFit | src/fragment.c:144-182 | with room for the header every fragment fits the maximum and no piece is empty, and the pieces join to the message if and only if 65535 of them can hold it |
| Fragmenter.TotalRoundsUp | src/fragment.c:149-153 | the total is the length divided by the limit, rounded up, while that fits an int; a total in range that is not stands for too few pieces |
| Fragmenter.ToIntIs | src/fragment.c:149-153 | the total as an int keeps the low 32 bits |
| Fragmenter.TooSmallMaximum | src/fragment.c:144-182 | below the header's size the limit wraps and the one fragment is longer than the maximum |
| Reassembly.Place | src/fragment.c:285-326 | a fragment meeting a context keeps it sound: count and length are those of its filled slots |
| Reassembly.FeedKeepsSound | src/fragment.c:226-327 | every string keeps the table sound, so the joined message fits its buffer |
| Reassembly.ForeignIsIndependent | src/fragment.c:226-327 | a fragment of another identifier has the result, and the effect on all contexts but this identifier's, that it has on the table without them |
| Reassembly.OwnFragment | src/fragment.c:226-327 | a fragment meets the one started context of its identifier or a new one, which is then what is found under it, and leaves the other identifiers' as they are |
| Reassembly.DisturbsIff | src/fragment.c:285-288 | what is found under an identifier survives a fragment of another one, unless it is an empty context itself, if and only if the fragment does not reset, for identifier zero, a context that stands before it |
| Reassembly.MostAreForeign | src/fragment.c:226-327 | every fragment of another identifier leaves a transfer alone whose identifier is not zero, and every one with an index in range leaves any alone |
| Reassembly.ForeignKeepsStarted | src/fragment.c:226-327 | a fragment of another identifier that does not disturb leaves what was started under this one where it is found |
| FragmentMachine.FragmentContext.JoinFragments | src/fragment.c:198-211 | the buffer of the counted length and one more character is filled with exactly the pieces in order and a NUL |
| FragmentMachine.FragmentContext.Accept | src/fragment.c:285-326 | reset, refusal, storing or completion of one fragment in place |
| FragmentMachine.Reassembler.Unfragment | src/fragment.c:226-333 | feeding a string to the table in place is the Feed of the run theorems |
| Bytes.SerializeUint | src/serialize.c:28-39 | the bytes written, most significant first, and no others |
| Bytes.UintOfValue | src/deserialize.c:36-99 | any bytes read as an integer are written back as they were |
| Bytes.UintOfBytes | src/serialize.c:28-39 | the most significant byte comes first |
| Bytes.ReadWrittenData | src/deserialize.c:101-144 | length-prefixed data are read back with the exact count |
| Bytes.ReadWrittenDhMpi | src/deserialize.c:158-178 | a written DH key is read back, except that zero comes back as missing |
| Bytes.MagnitudeOfValue | src/dh.c:265-304 | bytes without a leading zero are the unsigned form of their value |
| Tlvs.SerializeTlvs | src/protocol.c:300-324 | the lengths are added up first, and the second pass fills the buffer exactly |
| Tlvs.ParseTlvList | src/tlv.c:39-134 | the parsing loop yields the TLVs up to the first that does not fit |
| Tlvs.ParseSerialized | src/tlv.c:39-134 | written TLVs are read back, followed by those of whatever follows |
| Tlvs.UnknownTypeRead | src/tlv.c:39-134 | a TLV of an unknown type is read as of no type, and those behind it are found |
| Tlvs.SerializeParsed | src/tlv.c:204-210 | what was read is written back as it was, up to where reading stopped, unless a type is unknown |
| Tlvs.AppendTlvs | src/protocol.c:326-363 | text, NUL, TLVs and padding in one exactly filled buffer |
| Tlvs.PlaintextRoundTrip | src/otrng.c:1851-1903 | the receiver recovers the NUL-free text and the sent TLVs, followed by at most one padding TLV |
| Tlvs.PaddingHidesLength | src/padding.c:26-61 | up to a granularity of 65536 all plaintexts have one length modulo it |
| Tlvs.PaddingIsZeros | src/padding.c:26-61 | padding is a TLV of type 0 with zero bytes |
| Tlvs.LargeGranularityLeaks | src/padding.c:26-61 | above that some text has another remainder |
| DataMessageCodec.DataMessageRoundTrip | src/data_message.c:55-269 | the sender's bytes, with any revealed MAC keys after them, parse back; the parsed message serializes to the authenticated bytes; so it is valid under the sender's MAC key exactly when its DH key is |
| DataMessageCodec.SomethingToSend | src/data_message.c:55-94 | there are messages to send with every point that decodes and every id |
| DataMessageCodec.ReserializedIsReceived | src/data_message.c:236-269 | for every buffer that parses, the re-serialized body is the received bytes if and only if the DH key is without leading zero bytes |
| DataMessageCodec.OnlySentIsValid | src/data_message.c:236-269 | a buffer with the authenticator of a body, when no other body has it, is valid if and only if it parses to that body and its DH key is valid |
| DataMessageCodec.ValidOnCurve | src/data_message.c:236-269 | no message is valid whose point does not decode |
| DataMessageCodec.ParsedIsChecked | src/data_message.c:96-160 | what parses has the version and type of a data message and a point that decodes |
| DataMessageCodec.RevealedOnWire | src/protocol.c:181-219 | the revealed MAC keys follow the authenticator |
| DataMessageCodec.WireRead | src/data_message.c:96-210 | body and authenticator parse back, whatever follows |
| DataMessageCodec.HeaderRead | src/data_message.c:96-160 | the fixed-size header is read back |
| ClientProfileCodec.ProfileRoundTrip | src/client_profile.c:298-327 | for every combination of optional fields, whenever serialization returns bytes they parse back with the exact byte count, and serializing the body again to verify the signature does what it did for signing |
| ClientProfileCodec.MetadataRoundTrip | src/client_profile.c:269-296 | the same with the publishing mark, whenever the buffer was large enough |
| ClientProfileCodec.SerializeOutcome | src/client_profile.c:298-327 | serialization returns bytes up to a DSA key of 782 bytes with a transitional signature and 824 without, refuses the next 114 lengths, and writes past its buffer beyond |
| ClientProfileCodec.SignedBodyFitsIff | src/client_profile.c:245-267 | the body for signing and verifying fits its buffer exactly up to 778 and 820 bytes |
| ClientProfileCodec.MetadataFitsIff | src/client_profile.c:269-296 | the form with metadata fits exactly up to 782 and 824 bytes, and is never refused |
| ClientProfileCodec.EveryKeyLength | src/client_profile.c:329-367 | DSA keys of every length from 18 bytes on are parsed, with and without a transitional signature |
| ClientProfileCodec.SerializeProfile | src/client_profile.c:213-327 | fields through the cursor, their number in front and the signature behind, in the buffer of the source's size, with its three outcomes |
| ClientProfileCodec.FieldRead | src/client_profile.c:369-452 | each kind of field is read back, whatever follows |
| ClientProfileCodec.FieldWritten | src/client_profile.c:369-452 | whatever field was read is written back as the bytes it was read from, unless its versions hold a NUL; a DSA key is of type 0 |
| ClientProfileCodec.ParsedKeysDecode | src/client_profile.c:369-496 | whatever the bytes, the long-term and forging keys of a profile that parses decode |
| ClientProfileCodec.ReadFieldLoop | src/client_profile.c:454-496 | the loop that stores each field as it is read gives the profile of all the fields in order |
| ClientProfileCodec.DeserializeProfile | src/client_profile.c:454-496 | the number of fields, the fields and the signature, or an error |
| ClientProfileCodec.BodyLength | src/client_profile.c:213-243 | the exact length of the body for every combination of fields |
| ValidationCache.CacheAgreesIff | src/client_profile.c:797-809 | for every sequence of calls an answer is that of direct validation exactly when the profile has expired, it is the first call, or the first outcome was the same |
| ValidationCache.CacheAgrees | src/prekey_profile.c:404-428 | on one tag and key under a clock that never goes back, every answer is that of direct validation |
| ValidationCache.ClockSetBack | src/client_profile.c:797-809 | a clock set back keeps a profile rejected that is valid |
| ValidationCache.CachedProfile.FastValid | src/client_profile.c:797-809 | the cached answer and the new cache, in place |

## Left out

Beyond the models' reach or deliberately simplified:

- Unsigned counters: the ids i, j, k and pn are unbounded, except in the storage guard, where the 32-bit sum
  is written out.
- Cryptographic primitives: curve points, scalars, KDFs, the stream cipher and signatures of the session
  models are symbolic, a message decrypts exactly under the sender's key, and new keys are distinct
  identifiers. Failures of hashing, allocation and encoding, and the validity checks of received points and
  DH keys inside the ratchet model, are not part of them.
- What follows an undefined outcome, a null DH private half in `gcry_mpi_powm`, is not modelled: such a
  receive is part of no run. Using an erased elliptic-curve scalar is the identity point.
- RatchetTheorems.HonestRunKeepsInv: the runs leave out accepting late messages of superseded ratchets and
  rejections that do harm; `LateMessageHarmlessIff`, `HarmlessIff` and `ErasureStrands` say what those do.
- RatchetAuthentic.OnlyGenuineAccepted: of what somebody can know it covers the authenticators of messages and
  revealed MAC keys; what could be derived from other knowledge is not modelled.
- RatchetMachine.RatchetKeys.Receive: whether the TLVs are handled is a parameter; the TLVs themselves,
  heartbeats, the extra symmetric key callback and the plaintext shown are not part of it. In the key
  manager's classes the skipped keys and the old MAC keys are sequences. The linked list behind them is
  modelled on the heap by itself (`LinkedList`, `MacReveal`), and the one of the MAC keys joined to the class
  in `MacKeyLedger`; nodes shared with the temporary ratchet are not captured, and that the shared list has
  been freed after a rejection is a flag of the outcome.
- RatchetTheorems.RejectedState: where the flag is set, the entries it describes are those the source has
  freed.
- DakeMachine.Conversation.ReceiveIdentity: the checks of instance tags, points, DH key and profile of the
  offer are one arbitrary predicate on its keys.
- DakeMachine.Conversation.ReceiveAuthR: the same for the received points, DH key and profile.
- DakeRun.TAgreement: each side knows whose conversation it is in: the long-term and forging keys of a ring
  are those of the two sides, profiles of other people being left out. Others cannot post, as first keys,
  keys of later ratchets or keys derived from a secret.
- DakeMachine.Conversation.ReceiveAuthI: leaves out the first data message that is sent on success.
- SmpRun.ExchangeDecidesEquality: the secrets enter as scalars; the hash of fingerprints, session id and
  user secret, of which the source reads the first 56 of 64 bytes as a scalar, and the SMP message codecs
  are left out. The batch proofs' weights are an arbitrary function of the challenge.
- SmpSoundness.ResponderVerdict: soundness is special soundness, about a peer that answers one commitment
  twice; points are elements of the group, so the check that they are valid is not part of it.
- SmpSafety.SuccessOnlyInOrder: an answer before any message 1 has arrived, where the source reads a null
  pointer, is an event that does nothing; `ProvideSecret` leaves its outcome undefined.
- FragmentFormat.FormatRead: the parser of fragments reads numbers as they are printed; what `sscanf`
  tolerates beyond that (white space, signs, a 0x prefix) and a failing end of input are left out, as are
  the time stamps of contexts and `otrng_expire_fragments`.
- Fragmenter.FragmentMessage: sizes are those of a 64-bit `size_t`, and failing random bytes are left out.
- ClientProfileCodec.ProfileRoundTrip: signatures are not verified in the model of the codec; the
  transitional signature and the parsing of DSA keys into libgcrypt expressions are not part of it.
- ValidationCache.CacheAgrees: everything but the expiry is one unspecified predicate of tag and key.
- DataMessageCodec.DataMessageRoundTrip: leaves out base64, the hash of the authenticator's input and the
  encryption of data messages (the authenticator is an arbitrary function of key and bytes).
- Buffer sizes other than those of client profiles, signed tags, TLVs, revealed MAC keys and reassembled
  messages; the part of a profile that a transitional signature covers is not serialized by itself.

Not modelled at all:

- The non-interactive key exchange, its fallback, prekey ensembles and prekey server messages.
- Re-running the key exchange on a key manager with ratchet id other than 0, messages for other instance
  tags, and the first data message that completes the exchange on the 't' side.
- The codecs of the key exchange's messages and the validity of client profiles within it.
- The codec of the prekey profile, which has the fixed-size fields of the client profile only; it would add
  easy members.
- Query messages, whitespace tags, error strings, policies, OTRv3, persistence, clients and orchestration.
