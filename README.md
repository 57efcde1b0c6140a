# Queue-family resolution in VulkanMod

VulkanMod renders through Vulkan, and before it creates a logical device it
has to decide which queue family of the physical device will carry each kind
of work. This project models the two resolvers that make that decision and
proves what they pick.

- `Queue` (module `Queue`, `queue.dfy`) models the static part of
  `Queue.java`. `findQueueFamilies` fills a fresh `QueueFamilyIndices`
  object with four roles: graphics, present, transfer and compute. It scans
  the families in index order and stops once all four are set. Then the
  present, transfer and compute fallbacks apply, and each one raises its
  static fallback flag. The checks that throw come last. `getQueueFamilies`
  captures the device on first use and caches the first successful
  resolution. After a throw nothing is cached, so the next call resolves
  again.
- `FamilyIndices` (module `FamilyIndices`, `family_indices.dfy`) models
  `QueueFamilyIndices.java`. That resolver keeps graphics, present, transfer
  and `hasDedicatedTransferQueue` in static fields that are never reset. It
  has a shortcut for a device with exactly one family. Its scan remembers
  the first transfer-capable and the first compute-capable family as
  fallback candidates.
- `Families` (`families.dfy`) is the shared vocabulary. It holds the
  queue-flag bits (`GRAPHICS_BIT` = 1, `COMPUTE_BIT` = 2, `TRANSFER_BIT` = 4,
  as `bv32`) and `VK_QUEUE_FAMILY_IGNORED` (-1) as "role not set". It also
  has first-match and last-match searches over a family list and the
  order-keeping duplicate removal behind `unique()`.

Each resolver is an imperative method on a class that holds the static
state. Each is proved against a function (`Resolve`) that follows the loop
pass by pass, including its early `break`. Lemmas then describe `Resolve`
through first and last matches over the families the loop scanned. The
vendor calls are inputs. A family is its `queueFlags` together with the
answer `vkGetPhysicalDeviceSurfaceSupportKHR` gives for it.

Behaviour the proofs pin down:

- In `Queue`, graphics is the last graphics family before the loop stops,
  not the first. Because of the early `break`, a later graphics family can
  be skipped (`EarlyStopKeepsEarlierGraphics`). So the choice of graphics
  family depends on where the `break` falls.
- In `QueueFamilyIndices`, the static fields carry over from one call to the
  next. With values left by an earlier call, a device without any graphics
  family can pass and return a graphics index that is not a graphics family
  (`StaleFieldsHideMissingGraphics`). Resolving the same device twice is
  enough to change the answer: the second call can report a dedicated
  transfer queue on a family without the transfer bit
  (`RepeatedCallReportsDedicatedTransfer`). The single-family shortcut also
  leaves `hasDedicatedTransferQueue` as it was. The lemmas named `Fresh*`
  assume the fields start at their initial values.
- In `QueueFamilyIndices`, the transfer check runs before the graphics
  check. A device with neither transfer-capable nor compute-capable families
  gets the transfer message even when graphics is missing too
  (`FreshFailsIff`).

## Model

| member | source | states |
|---|---|---|
| Families.FirstWhere | src/main/java/net/vulkanmod/vulkan/queue/Queue.java:108-116 | The result is `IGNORED` exactly when no family matches. Otherwise it is the lowest matching index: the first-match-wins rule of the compute and transfer roles. |
| Families.LastWhere | src/main/java/net/vulkanmod/vulkan/queue/Queue.java:98-100 | The result is `IGNORED` exactly when no family matches. Otherwise it is the highest matching index: the last-match-wins rule of graphics. |
| Families.WhereAppend | src/main/java/net/vulkanmod/vulkan/queue/Queue.java:95-127 | Scanning one more family keeps an existing first match and moves the last match to the new family when it matches. |
| Families.FirstWhereOfPrefix | src/main/java/net/vulkanmod/vulkan/queue/Queue.java:125-126 | A first match found before the loop stops is the first match of the whole family list. |
| Families.DedicatedTransferBits | src/main/java/net/vulkanmod/vulkan/queue/Queue.java:112-113 | The one-mask test for a dedicated transfer family means transfer bit set, graphics bit clear and compute bit clear. |
| Families.IndexOf | src/main/java/net/vulkanmod/vulkan/queue/Queue.java:173 | The position of the first occurrence of a value, with no earlier occurrence. |
| Families.IndexOfAppend | src/main/java/net/vulkanmod/vulkan/queue/Queue.java:173 | Appending a value does not move the first occurrence of values already present. |
| Families.Distinct | src/main/java/net/vulkanmod/vulkan/queue/Queue.java:173 | `IntStream.distinct()`: no duplicates, exactly the input's values, in the order of their first occurrence. |
| Queue.Indices.Unique | src/main/java/net/vulkanmod/vulkan/queue/Queue.java:172-174 | `unique()` lists each of the four roles' families once, graphics first, in order of first appearance. It is free of `IGNORED` exactly when the indices are complete. |
| Queue.Indices.Array | src/main/java/net/vulkanmod/vulkan/queue/Queue.java:176-178 | `array()` is graphics then present. It is free of `IGNORED` exactly when the indices are suitable. |
| Queue.Indices.IsComplete | src/main/java/net/vulkanmod/vulkan/queue/Queue.java:164-166 | No ensures. All four roles set. `Queue.Indices.Unique` ties it to `IGNORED` being absent from `unique()`, and `Queue.CompleteIffCovers` to the scanned families covering all four roles. |
| Queue.Indices.IsSuitable | src/main/java/net/vulkanmod/vulkan/queue/Queue.java:168-170 | No ensures. Graphics and present set. `Queue.Indices.Array` ties it to `IGNORED` being absent from `array()`. |
| Queue.Step | src/main/java/net/vulkanmod/vulkan/queue/Queue.java:96-126 | No ensures. One pass of the loop body for family `i`. Described in closed form by `Queue.StepClosed`. |
| Queue.Finish | src/main/java/net/vulkanmod/vulkan/queue/Queue.java:129-154 | No ensures. The present, transfer and compute fallbacks with their flags, then the four throws in source order. Described by the `Queue.Resolve*` lemmas. |
| Queue.Resolve | src/main/java/net/vulkanmod/vulkan/queue/Queue.java:82-156 | No ensures. `findQueueFamilies` as a function: `Scan` from unset, then `Finish`. Described by `Queue.ScanStopsAtFirstCover`, `Queue.ResolveFailsIffNoGraphics`, `Queue.ResolveIsComplete`, `Queue.ResolveGraphics`, `Queue.ResolveCompute`, `Queue.ResolveTransfer`, `Queue.ResolvePresent` and `Queue.ResolveFlags`. |
| Queue.Scanned | src/main/java/net/vulkanmod/vulkan/queue/Queue.java:95-127 | The loop looks at no more families than the device has. |
| Queue.Scan | src/main/java/net/vulkanmod/vulkan/queue/Queue.java:95-127 | The loop never scans past the last family, and never goes back. |
| Queue.StepClosed | src/main/java/net/vulkanmod/vulkan/queue/Queue.java:96-123 | One loop pass turns the indices for a prefix into the indices for the prefix plus one family. Graphics is the last graphics family. Present is the last graphics family with present support, else the first family with present support. Transfer is the first dedicated transfer family. Compute is the first compute family. |
| Queue.CompleteIffCovers | src/main/java/net/vulkanmod/vulkan/queue/Queue.java:164-166 | After scanning a prefix, the indices are complete exactly when that prefix has a family for each of the four roles. |
| Queue.ScanFromClosed | src/main/java/net/vulkanmod/vulkan/queue/Queue.java:95-127 | From any point, the loop ends with the closed-form indices of the scanned prefix. It stops at the first prefix that completes the indices, or at the end of the list. |
| Queue.ScanStopsAtFirstCover | src/main/java/net/vulkanmod/vulkan/queue/Queue.java:125-126 | The loop stops right after the shortest prefix holding all four roles, or scans every family when there is no such prefix. |
| Queue.ScannedFindsEveryRole | src/main/java/net/vulkanmod/vulkan/queue/Queue.java:95-127 | Any role some family can fill is already filled among the families scanned before the `break`. |
| Queue.ScannedFirstMatches | src/main/java/net/vulkanmod/vulkan/queue/Queue.java:95-127 | The scan's compute and transfer are the first matches over all families. Its graphics and present are unset exactly when no family has that capability. |
| Queue.ResolveFailsIffNoGraphics | src/main/java/net/vulkanmod/vulkan/queue/Queue.java:129-152 | `findQueueFamilies` throws exactly when no family has the graphics bit, and then with the graphics message. Every other role has a fallback. |
| Queue.ResolveIsComplete | src/main/java/net/vulkanmod/vulkan/queue/Queue.java:129-154 | On normal return all four roles are set to indices of existing families. |
| Queue.ResolveGraphics | src/main/java/net/vulkanmod/vulkan/queue/Queue.java:98-100 | Graphics is a graphics family: the last one among the families scanned before the loop stopped. |
| Queue.ResolveCompute | src/main/java/net/vulkanmod/vulkan/queue/Queue.java:108-110 | Compute is the lowest-index compute family. Without one it is the graphics family (the fallback at lines 140-143). |
| Queue.ResolveTransfer | src/main/java/net/vulkanmod/vulkan/queue/Queue.java:112-116 | Transfer is the lowest-index dedicated transfer family. Without one it is the compute family, then the graphics family (the fallback at lines 135-138). |
| Queue.ResolvePresent | src/main/java/net/vulkanmod/vulkan/queue/Queue.java:101-123 | When any family reports present support, present is such a family: the last graphics one scanned, else the first one. Otherwise it is the compute family, then the graphics family (lines 129-133). |
| Queue.ResolveFlags | src/main/java/net/vulkanmod/vulkan/queue/Queue.java:129-143 | Each fallback flag is raised exactly when no family fills its role. `graphicsSupported` is raised exactly when some family has the graphics bit. No flag is ever cleared. |
| Queue.SeparateFamiliesExample | src/main/java/net/vulkanmod/vulkan/queue/Queue.java:82-156 | Separate graphics+present, compute and transfer families give each role its own family and raise no fallback flag. |
| Queue.UniversalFamilyExample | src/main/java/net/vulkanmod/vulkan/queue/Queue.java:82-156 | A single family with every capability serves all four roles. Only the transfer fallback flag is raised. |
| Queue.EarlyStopKeepsEarlierGraphics | src/main/java/net/vulkanmod/vulkan/queue/Queue.java:125-126 | The early `break` can leave graphics on an earlier family although a later graphics family exists. |
| Queue.QueueFamilyIndices.constructor | src/main/java/net/vulkanmod/vulkan/queue/Queue.java:158-162 | A new object has every role `IGNORED`. |
| Queue.QueueFamilyIndices.IsComplete | src/main/java/net/vulkanmod/vulkan/queue/Queue.java:164-166 | No ensures. The object's `isComplete()`, read through `Value()`, so `Queue.Indices.IsComplete` and its lemmas apply. |
| Queue.QueueFamilyIndices.IsSuitable | src/main/java/net/vulkanmod/vulkan/queue/Queue.java:168-170 | No ensures. The object's `isSuitable()`, read through `Value()`, so `Queue.Indices.IsSuitable` and its lemmas apply. |
| Queue.QueueFamilyIndices.Unique | src/main/java/net/vulkanmod/vulkan/queue/Queue.java:172-174 | No ensures. The object's `unique()`, read through `Value()`, so `Queue.Indices.Unique`'s contract applies. |
| Queue.QueueFamilyIndices.Array | src/main/java/net/vulkanmod/vulkan/queue/Queue.java:176-178 | No ensures. The object's `array()`, read through `Value()`, so `Queue.Indices.Array`'s contract applies. |
| Queue.QueueStatics.constructor | src/main/java/net/vulkanmod/vulkan/queue/Queue.java:21-27 | Class initialisation: every flag false, no device, no cached indices. |
| Queue.QueueStatics.FindQueueFamilies | src/main/java/net/vulkanmod/vulkan/queue/Queue.java:82-156 | Returns a fresh object holding `Resolve`'s indices, or throws `Resolve`'s error. Either way the static flags become `Resolve`'s flags. The device and the cache are untouched. |
| Queue.QueueStatics.ScanFamilies | src/main/java/net/vulkanmod/vulkan/queue/Queue.java:95-127 | The loop leaves the indices equal to `Scan` from unset. `graphicsSupported` is raised when a graphics family was found. |
| Queue.QueueStatics.GetQueueFamilies | src/main/java/net/vulkanmod/vulkan/queue/Queue.java:72-80 | Captures the device only when none is held. Once indices are cached, returns that very object and changes no flag. Otherwise resolves for the held device, and caches the result only when resolution succeeds. |
| Queue.RepeatedLookupReturnsCachedObject | src/main/java/net/vulkanmod/vulkan/queue/Queue.java:72-80 | After a successful lookup, the next lookup returns the same object, whatever device is current by then. |
| FamilyIndices.Fields.Unique | src/main/java/net/vulkanmod/vulkan/queue/QueueFamilyIndices.java:122-124 | `unique()` lists graphics, present and transfer once each, graphics first, in order of first appearance. It is free of `IGNORED` exactly when the fields are complete. |
| FamilyIndices.Fields.Array | src/main/java/net/vulkanmod/vulkan/queue/QueueFamilyIndices.java:126-128 | `array()` is graphics then present. It is free of `IGNORED` exactly when the fields are suitable. |
| FamilyIndices.Fields.IsComplete | src/main/java/net/vulkanmod/vulkan/queue/QueueFamilyIndices.java:113-116 | No ensures. Graphics, present and transfer set. `FamilyIndices.Fields.Unique` ties it to `IGNORED` being absent from `unique()`. It decides the `break` in `FamilyIndices.ScanStopsWhenComplete`. |
| FamilyIndices.Fields.IsSuitable | src/main/java/net/vulkanmod/vulkan/queue/QueueFamilyIndices.java:118-120 | No ensures. Graphics and present set. `FamilyIndices.Fields.Array` ties it to `IGNORED` being absent from `array()`. |
| FamilyIndices.Step | src/main/java/net/vulkanmod/vulkan/queue/QueueFamilyIndices.java:44-79 | No ensures. One pass of the loop body for family `i`. Described in closed form by `FamilyIndices.StepClosed`. |
| FamilyIndices.Start | src/main/java/net/vulkanmod/vulkan/queue/QueueFamilyIndices.java:40-41 | No ensures. The loop starts from the incoming static fields, with no fallback candidates. |
| FamilyIndices.Finish | src/main/java/net/vulkanmod/vulkan/queue/QueueFamilyIndices.java:82-109 | No ensures. The transfer and present fallbacks, `hasDedicatedTransferQueue`, then the three throws in source order. Described by `FamilyIndices.MultiFamilyOutcome` and the `FamilyIndices.Fresh*` lemmas. |
| FamilyIndices.Resolve | src/main/java/net/vulkanmod/vulkan/queue/QueueFamilyIndices.java:24-111 | No ensures. `findQueueFamilies` as a function of the families and the incoming fields: the single-family shortcut, else `Scan` then `Finish`. Described by `FamilyIndices.SingleFamilyShortcut`, `FamilyIndices.ScanStopsWhenComplete`, `FamilyIndices.MultiFamilyOutcome` and the `FamilyIndices.Fresh*` lemmas. |
| FamilyIndices.Scan | src/main/java/net/vulkanmod/vulkan/queue/QueueFamilyIndices.java:43-80 | The loop never scans past the last family, and never goes back. |
| FamilyIndices.Scanned | src/main/java/net/vulkanmod/vulkan/queue/QueueFamilyIndices.java:43 | The loop looks at no more families than the device has. |
| FamilyIndices.StepClosed | src/main/java/net/vulkanmod/vulkan/queue/QueueFamilyIndices.java:44-77 | One loop pass turns the state for a prefix into the state for the prefix plus one family. Graphics, present and transfer are the last family that wrote them, or keep their incoming values. The two candidates are the first transfer-capable and the first compute-capable family. |
| FamilyIndices.ScanFromClosed | src/main/java/net/vulkanmod/vulkan/queue/QueueFamilyIndices.java:43-80 | From any point, the loop ends with the closed-form state of the scanned prefix. It stops at the first prefix after which the fields are complete, or at the end of the list. |
| FamilyIndices.ScanStopsWhenComplete | src/main/java/net/vulkanmod/vulkan/queue/QueueFamilyIndices.java:79 | Whatever the incoming fields, the loop scans at least one family when there is one. It stops right after the first prefix that completes the fields, or scans every family. |
| FamilyIndices.FreshScanFindsEveryRole | src/main/java/net/vulkanmod/vulkan/queue/QueueFamilyIndices.java:43-80 | From initial fields, any role some family can fill is already filled among the families scanned before the `break`. |
| FamilyIndices.SingleFamilyShortcut | src/main/java/net/vulkanmod/vulkan/queue/QueueFamilyIndices.java:31-35 | With exactly one family, all three roles are family 0 and the call returns true, whatever that family reports. `hasDedicatedTransferQueue` keeps its value. |
| FamilyIndices.FreshFailsIff | src/main/java/net/vulkanmod/vulkan/queue/QueueFamilyIndices.java:102-107 | From initial fields, the call throws exactly when the device has no family, or has several and none has the graphics bit. The exception is the transfer one when no family has the transfer or compute bit, otherwise the graphics one. |
| FamilyIndices.MultiFamilyOutcome | src/main/java/net/vulkanmod/vulkan/queue/QueueFamilyIndices.java:100-109 | Whatever the incoming fields, the multi-family path leaves `hasDedicatedTransferQueue` equal to "graphics differs from transfer", also when it then throws. A normal return yields true, with all three roles set. |
| FamilyIndices.FreshSuccess | src/main/java/net/vulkanmod/vulkan/queue/QueueFamilyIndices.java:82-109 | From initial fields, a normal return yields true. All three roles are existing families. `hasDedicatedTransferQueue` says whether transfer differs from graphics. |
| FamilyIndices.FreshTransfer | src/main/java/net/vulkanmod/vulkan/queue/QueueFamilyIndices.java:57-90 | Transfer is the last scanned family that wrote it. Failing that: the first transfer-capable one, then the first compute-capable one, then graphics. So it can do transfer or compute work, or it is the graphics family. |
| FamilyIndices.FreshPresent | src/main/java/net/vulkanmod/vulkan/queue/QueueFamilyIndices.java:50-55 | When any family reports present support, present is the last such family scanned. Otherwise it is the first compute-capable family, then graphics (the fallback at lines 92-98). |
| FamilyIndices.StaleFieldsHideMissingGraphics | src/main/java/net/vulkanmod/vulkan/queue/QueueFamilyIndices.java:18-22 | Fields left by an earlier call let a device without any graphics family return true with a non-graphics graphics index. From initial fields the same device throws. |
| FamilyIndices.RepeatedCallReportsDedicatedTransfer | src/main/java/net/vulkanmod/vulkan/queue/QueueFamilyIndices.java:18-22 | Resolving the same two-graphics-family device twice changes the answer. The second call reports a dedicated transfer queue on a family without the transfer bit. |
| FamilyIndices.QueueFamilyIndices.IsComplete | src/main/java/net/vulkanmod/vulkan/queue/QueueFamilyIndices.java:113-116 | No ensures. `isComplete()` on the static fields, read through `Value()`, so `FamilyIndices.Fields.IsComplete` and its lemmas apply. |
| FamilyIndices.QueueFamilyIndices.IsSuitable | src/main/java/net/vulkanmod/vulkan/queue/QueueFamilyIndices.java:118-120 | No ensures. `isSuitable()` on the static fields, read through `Value()`, so `FamilyIndices.Fields.IsSuitable` and its lemmas apply. |
| FamilyIndices.QueueFamilyIndices.Unique | src/main/java/net/vulkanmod/vulkan/queue/QueueFamilyIndices.java:122-124 | No ensures. `unique()` on the static fields, read through `Value()`, so `FamilyIndices.Fields.Unique`'s contract applies. |
| FamilyIndices.QueueFamilyIndices.Array | src/main/java/net/vulkanmod/vulkan/queue/QueueFamilyIndices.java:126-128 | No ensures. `array()` on the static fields, read through `Value()`, so `FamilyIndices.Fields.Array`'s contract applies. |
| FamilyIndices.QueueFamilyIndices.constructor | src/main/java/net/vulkanmod/vulkan/queue/QueueFamilyIndices.java:18-22 | The static initialisers: every role `IGNORED`, no dedicated transfer queue. |
| FamilyIndices.QueueFamilyIndices.FindQueueFamilies | src/main/java/net/vulkanmod/vulkan/queue/QueueFamilyIndices.java:24-111 | From whatever the static fields held, leaves them as `Resolve` says and returns `Resolve`'s boolean or exception. |
| FamilyIndices.QueueFamilyIndices.ScanFamilies | src/main/java/net/vulkanmod/vulkan/queue/QueueFamilyIndices.java:40-80 | The loop leaves the static fields and the two fallback candidates equal to `Scan` from the incoming fields. |

## Left out

- `Queue` instance members (the constructors, `beginCommands`, `submitCommands`, `queue`, `waitIdle`, `cleanUp`): they wrap native queue handles and command pools, and their `synchronized` locking is concurrency. The model has neither.
- The `Queue.Family` enum: it only names roles and has no behaviour.
- `vkGetPhysicalDeviceQueueFamilyProperties`, `vkGetPhysicalDeviceSurfaceSupportKHR`, `Vulkan.getSurface()` and `Vulkan.getVkDevice()`: native or global calls. Their answers are inputs: the family list with one present-support answer per family, and the `current` device of `GetQueueFamilies`.
- `MemoryStack` allocation and the shared `presentSupport` buffer: the model has no native memory. Each query's answer is the family's own `present` value.
- Logging through `Initializer.LOGGER`: it has no effect on the results.
- Queue.QueueStatics.FindQueueFamilies: the returned object's fields are public and callers may change them later. The cache holds the object, and later changes through other references are not modelled.
- Queue.QueueStatics.ScanFamilies and FamilyIndices.QueueFamilyIndices.ScanFamilies: the loop is a method of its own, called from `FindQueueFamilies`. The Java code has it inline.
- FamilyIndices.FreshFailsIff, FamilyIndices.FreshSuccess, FamilyIndices.FreshTransfer and FamilyIndices.FreshPresent: they assume the static fields start at their initial values. For other incoming values, only `Resolve` itself and `ScanStopsWhenComplete` describe the result.
- `render/chunk/build/TintCache.java` is not part of this model: it is unrelated to queue families.
