# School records: entities, IndexedDB DAOs and managers

A Dafny model of the core of a small TypeScript school-records application: the four
entity classes (`Student`, `Teacher`, `Course`, `Resource`) with their mutators and their
`toJSON`/`fromJSON` pair, the three IndexedDB data-access objects
(`IndexedDBCourseDAO`, `IndexedDBStudentDAO`, `IndexedDBTeacherDAO`) over object stores
whose writes follow the "store a record into an object store" operation of section 5.1
of the W3C Indexed Database API, and the four managers (`StudentManager`,
`TeacherManager`, `CourseManager`, `ResourceManager`) that keep a `Map` cache in front
of a DAO.

How the model is built:

- **Object graph.** JavaScript objects live in an arena, `Entities.Heap`: four maps from
  a reference (`Ref`, object identity) to the object's fields, plus an allocation
  counter. The `includes` checks in the mutators compare references, not ids, and the
  arena models exactly that. Every mutator is a pure function from heap to heap, and
  every contract says which single object changed (`OnlyStudentChanged`, ...), that
  nothing was freed (`Extends`), or that only fresh objects appeared (`OnlyAllocates`).
- **Documents.** What `toJSON` returns, and what an object store holds, is a datatype
  (`Documents`). An array field that `fromJSON` reads without a guard is an `Option`:
  a document without `enrolledCourses` makes `Student.fromJSON` fail with a TypeError.
  `fromJSON` allocates fresh stub courses for the nested `{id, title, subject}`
  projections. The `RoundTrip` lemmas prove that `toJSON(fromJSON(toJSON(x)))`
  equals `toJSON(x)` for teachers, students and resources. For a course, the round
  trip keeps everything except the students and resources, which `Course.fromJSON`
  drops.
- **Object stores.** A store is a sequence of records in strictly increasing key order
  (`KeyOrder.Less` is lexicographic order on the strings' characters, that is code-point order). `ObjectStore.Add` is the
  no-overwrite store, `ObjectStore.Put` the overwriting one, `ObjectStore.Remove` the
  delete, and a unique index refuses a write with a ConstraintError. `getAll` returns
  records in key order.
- **DAO reads.** The course and student DAOs rebuild objects with `fromJSON`. A
  `Rebuilt(h0, h, x, d)` predicate says that `x` is a fresh object of heap `h`, and
  that `x` serialises back to what `fromJSON` keeps of document `d`. The teacher DAO
  returns the stored documents themselves.
- **Managers.** A JavaScript `Map` is an insertion-ordered association list (`JsMap`).
  Setting an existing key keeps its position. The cache `Inv` of each manager states
  that every cached value has the key as its id and that the key is stored. For the
  student and teacher managers it also states that the value's email is the email
  the store files under that key. Every operation keeps the invariant. The
  `...ThenGet`, `GetTwice` and `InitializeThenGetAll` lemmas relate operations to
  each other.

Asynchrony is flattened: each `await` becomes a sequential step, and a rejected
promise becomes an `Error` result or an `Option<Error>` beside the new state.

Where the code and the application's design notes disagree, the model follows the
code:

- `findAll` returns records in key order, not in insertion order.
- `getAllX` answers from the cache alone.
- `IndexedDBStudentDAO.delete` throws "Method not implemented".
- `findByStudent` on courses can never find anything, because `Course.fromJSON`
  leaves `students` empty.

## Model

| member | source | states |
|---|---|---|
| Entities.NewStudent | src/models/Student.ts:9-14 | a new student has the given id, name and email, no courses and no services; only a fresh object is added |
| Entities.NewTeacher | src/models/Teacher.ts:7-12 | a new teacher has the given id, name and email and no courses; only a fresh object is added |
| Entities.NewCourse | src/models/Course.ts:12-17 | a new course has the given id, title and subject, no teacher, students or resources; only a fresh object is added |
| Entities.NewResource | src/models/Resource.ts:8-14 | a new resource has the given fields, and `available` defaults to true when the argument is undefined; only a fresh object is added |
| StudentModel.Enroll | src/models/Student.ts:36-41 | the course is enrolled; if it was new, it is appended, the student joins the course's roster and nothing else changes; if it was already there, the heap is unchanged |
| StudentModel.EnrollIdempotent | src/models/Student.ts:36-41 | enrolling twice in the same course equals enrolling once |
| StudentModel.EnrollTwiceListsOnce | src/models/Student.ts:36-41 | after enrolling twice the course is listed exactly once, and the student exactly once in the course's roster |
| StudentModel.AddService | src/models/Student.ts:43-47 | a service already listed leaves the heap unchanged; otherwise it is appended to the list; no other field or object changes, and duplicate-freedom is kept |
| StudentModel.AddServiceIdempotent | src/models/Student.ts:43-47 | adding a service twice equals adding it once |
| StudentModel.AddServiceListsOnce | src/models/Student.ts:43-47 | in a duplicate-free list the added service occurs exactly once |
| TeacherModel.AssignCourse | src/models/Teacher.ts:30-35 | the course is in the teacher's list; if it was new, it is appended and the course's teacher becomes this teacher; otherwise the heap is unchanged |
| TeacherModel.AssignCourseIdempotent | src/models/Teacher.ts:30-35 | assigning the same course twice equals assigning it once |
| TeacherModel.AssignCourseKeepsPreviousTeacher | src/models/Teacher.ts:30-35 | the previous teacher keeps the course in its own list after another teacher is assigned it; the two sides of the link disagree |
| CourseModel.AssignTeacher | src/models/Course.ts:43-45 | the course's teacher is replaced and nothing else about the course changes |
| CourseModel.AssignTeacherReplaces | src/models/Course.ts:43-45 | a second assignment overrides the first |
| CourseModel.AddStudent | src/models/Course.ts:47-51 | the student is on the roster; appended when new, otherwise the heap is unchanged |
| CourseModel.AddStudentIdempotent | src/models/Course.ts:47-51 | adding a student twice equals adding once |
| CourseModel.AssignResource | src/models/Course.ts:53-58 | the resource is listed; when new, it is appended and the resource lists the course back, with the resource's other fields and all other objects unchanged; otherwise nothing changes |
| CourseModel.AssignResourceIdempotent | src/models/Course.ts:53-58 | assigning a resource twice equals assigning once |
| ResourceModel.Allocate | src/models/Resource.ts:36-41 | fails with "not available" exactly when the resource is allocated already; otherwise only `available` changes, to false |
| ResourceModel.Release | src/models/Resource.ts:43-45 | the resource becomes available and nothing else changes |
| ResourceModel.AllocateReleaseRestores | src/models/Resource.ts:36-45 | allocating an available resource and releasing it restores the heap exactly |
| ResourceModel.AllocateTwiceFails | src/models/Resource.ts:36-41 | a second allocation without a release fails |
| ResourceModel.ReleaseIdempotent | src/models/Resource.ts:43-45 | releasing twice equals releasing once |
| ResourceModel.AddCourse | src/models/Resource.ts:47-51 | the course is listed; appended when new, otherwise the heap is unchanged |
| ResourceModel.AddCourseIdempotent | src/models/Resource.ts:47-51 | adding a course twice equals adding once |
| ResourceModel.AddCourseListsOnce | src/models/Resource.ts:47-51 | the course is listed exactly once afterwards |
| TeacherJson.ToJSON | src/models/Teacher.ts:37-48 | the document carries the teacher's id, name and email and one `{id, title, subject}` projection per course, in order |
| TeacherJson.FromJSON | src/models/Teacher.ts:50-58 | a fresh teacher whose courses are fresh stub courses; serialising it gives back what the document holds |
| TeacherJson.RoundTrip | src/models/Teacher.ts:37-58 | `toJSON` of `fromJSON(toJSON(t))` equals `toJSON(t)` |
| StudentJson.ToJSON | src/models/Student.ts:49-61 | the document carries id, name, email, the services and one projection per enrolled course, in order |
| StudentJson.FromJSON | src/models/Student.ts:63-70 | fails with a TypeError exactly when `enrolledCourses` is missing; otherwise a fresh student with fresh stub courses that serialises back to the document |
| StudentJson.RoundTrip | src/models/Student.ts:49-70 | `fromJSON(toJSON(s))` succeeds and serialises back to `toJSON(s)` |
| ResourceJson.ToJSON | src/models/Resource.ts:53-65 | the document carries id, name, type, availability and one projection per course, in order |
| ResourceJson.FromJSON | src/models/Resource.ts:67-78 | a fresh resource with fresh stub courses; a missing `available` reads back as true |
| ResourceJson.RoundTrip | src/models/Resource.ts:53-78 | `toJSON` of `fromJSON(toJSON(r))` equals `toJSON(r)` |
| CourseJson.ToJSON | src/models/Course.ts:60-77 | the document carries id, title and subject, the teacher's own `toJSON` exactly when there is a teacher, and student and resource projections in order |
| CourseJson.FromJSON | src/models/Course.ts:79-86 | a fresh course with the document's id, title and subject, no students or resources, and a fresh teacher rebuilt by `Teacher.fromJSON` when the document has one |
| CourseJson.RoundTrip | src/models/Course.ts:60-86 | `fromJSON(toJSON(c))` keeps id, title, subject and teacher document and drops students and resources |
| Projection.AllocCourseStubs | src/models/Student.ts:66-67 | one fresh, distinct stub course per projection, each carrying that projection's id, title and subject |
| Projection.AllocCourseStubsRoundTrip | src/models/Student.ts:66-67 | projecting the stubs again gives back the projections |
| ObjectStore.Store | src/controllers/IndexedDBStudentDAO.ts:45 | the step `add` and `put` share once their checks pass: the store files the value under the key, keeps key order, and every other key reads as before |
| ObjectStore.Add | src/controllers/IndexedDBStudentDAO.ts:45 | `add` fails with a ConstraintError exactly when the key is present or the unique index clashes; otherwise exactly that key changes and key order and index uniqueness are kept |
| ObjectStore.Put | src/controllers/IndexedDBStudentDAO.ts:97 | `put` fails exactly when the unique index clashes; otherwise it inserts or overwrites that key only |
| ObjectStore.Remove | src/controllers/IndexedDBCourseDAO.ts:86 | `delete` removes that key only; an absent key is no error |
| ObjectStore.IndexLookup | src/controllers/IndexedDBStudentDAO.ts:70-71 | an index `get` finds a record exactly when one has that index value |
| ObjectStore.IndexLookupUnique | src/controllers/IndexedDBStudentDAO.ts:34 | on a unique index, the record found is the one record with that value |
| CourseDao.Save | src/controllers/IndexedDBCourseDAO.ts:31-41 | fails with a ConstraintError exactly when the id is stored; otherwise files `toJSON` under the id and changes nothing else |
| CourseDao.Update | src/controllers/IndexedDBCourseDAO.ts:69-79 | files `toJSON` under the id whether or not it was stored; other keys unchanged |
| CourseDao.Delete | src/controllers/IndexedDBCourseDAO.ts:81-91 | removes the id only |
| CourseDao.FindById | src/controllers/IndexedDBCourseDAO.ts:43-54 | finds exactly the stored ids, rebuilding the stored document with only fresh objects added |
| CourseDao.FindAll | src/controllers/IndexedDBCourseDAO.ts:56-67 | one distinct fresh course per record, in key order, each rebuilt from its record |
| CourseDao.FindByTeacher | src/controllers/IndexedDBCourseDAO.ts:93-96 | the rebuilt courses whose stored teacher has that id, in key order |
| CourseDao.FindByStudent | src/controllers/IndexedDBCourseDAO.ts:98-103 | always empty: rebuilt courses have no students |
| CourseDao.FindBySubject | src/controllers/IndexedDBCourseDAO.ts:105-108 | the rebuilt courses whose stored subject matches, in key order |
| CourseDao.FindAllValid | src/controllers/IndexedDBCourseDAO.ts:56-67 | rebuilding keeps the heap well formed |
| CourseDao.SaveThenFindById | src/controllers/IndexedDBCourseDAO.ts:31-54 | reading a saved course back gives a course that serialises as `fromJSON` keeps its document |
| CourseDao.UpdateThenFindById | src/controllers/IndexedDBCourseDAO.ts:69-79 | after an update, reads of that id see the new document and other ids read as before |
| CourseDao.DeleteThenFindById | src/controllers/IndexedDBCourseDAO.ts:81-91 | after a delete the id reads as absent and other ids read as before |
| CourseDao.AssignedTeacherSurvivesStore | src/models/Course.ts:79-86 | a course's teacher survives storing and reading back, as a fresh teacher with the same document |
| StudentDao.Save | src/controllers/IndexedDBStudentDAO.ts:40-50 | fails with a ConstraintError exactly when the id is stored or another record has the email; otherwise files `toJSON` under the id only |
| StudentDao.Update | src/controllers/IndexedDBStudentDAO.ts:92-102 | fails exactly when another record has the email; otherwise files `toJSON` under the id only |
| StudentDao.Delete | src/controllers/IndexedDBStudentDAO.ts:5-7 | always fails with "not implemented" |
| StudentDao.FindById | src/controllers/IndexedDBStudentDAO.ts:52-63 | finds exactly the stored ids, rebuilt by `Student.fromJSON` |
| StudentDao.FindByEmail | src/controllers/IndexedDBStudentDAO.ts:65-77 | finds a student exactly when a record has that email, rebuilt from that record |
| StudentDao.FindAll | src/controllers/IndexedDBStudentDAO.ts:79-90 | one distinct fresh student per record, in key order |
| StudentDao.FindByCourse | src/controllers/IndexedDBStudentDAO.ts:8-13 | the students whose stored documents list the course, in key order, each rebuilt a second time by `fromJSON` |
| StudentDao.FilterSnapshots | src/controllers/IndexedDBStudentDAO.ts:10-12 | filtering objects by enrolment commutes with serialising them |
| StudentDao.FindByCourseValid | src/controllers/IndexedDBStudentDAO.ts:8-13 | the double rebuild keeps the heap well formed |
| StudentDao.SaveThenFindByEmail | src/controllers/IndexedDBStudentDAO.ts:40-77 | a saved student is found again by its email |
| StudentDao.AddedServiceSurvivesUpdate | src/controllers/IndexedDBStudentDAO.ts:92-102 | a service added and written back is present when the student is read back |
| StudentDao.EnrolledStudentFoundByCourse | src/controllers/IndexedDBStudentDAO.ts:8-13 | a saved enrolled student is found by the course's id |
| TeacherDao.ExtractKey | src/controllers/IndexedDBTeacherDAO.ts:24 | the in-line key path `id` yields a key exactly when the value has an own property named `id` |
| TeacherDao.AddObjectAsWritten | src/controllers/IndexedDBTeacherDAO.ts:36 | `add(teacher)` with the object itself: the clone has no own `id`, so the write fails with a DataError |
| TeacherDao.AddObjectAsWrittenAlwaysFails | src/controllers/IndexedDBTeacherDAO.ts:31-41 | every `save` as written is refused, whatever the store holds |
| TeacherDao.PutObjectAsWritten | src/controllers/IndexedDBTeacherDAO.ts:92 | `put(teacher)` with the object itself: the same missing key, so the write fails with a DataError |
| TeacherDao.PutObjectAsWrittenAlwaysFails | src/controllers/IndexedDBTeacherDAO.ts:87-97 | every `update` as written is refused, whatever the store holds |
| TeacherDao.Save | src/controllers/IndexedDBTeacherDAO.ts:31-41 | storing `toJSON`: fails with a ConstraintError exactly when the id is stored or another record has the email; otherwise changes that id only |
| TeacherDao.Update | src/controllers/IndexedDBTeacherDAO.ts:87-97 | an upsert failing exactly when another record has the email |
| TeacherDao.Delete | src/controllers/IndexedDBTeacherDAO.ts:99-109 | removes the id only |
| TeacherDao.FindById | src/controllers/IndexedDBTeacherDAO.ts:43-53 | the stored document, not a `Teacher` object, exactly for stored ids |
| TeacherDao.FindByEmail | src/controllers/IndexedDBTeacherDAO.ts:55-66 | the one stored document with that email, if any |
| TeacherDao.FindAll | src/controllers/IndexedDBTeacherDAO.ts:75-85 | the stored documents in key order |
| TeacherDao.FindByCourse | src/controllers/IndexedDBTeacherDAO.ts:68-73 | the first stored document in key order that lists the course, or nothing when none does |
| TeacherDao.AssignedCourseSurvivesUpdate | src/controllers/IndexedDBTeacherDAO.ts:87-97 | after assigning a course and updating, the stored document lists the course |
| JsMap.Get | src/managers/CourseManager.ts:35 | `Map.get` finds a value exactly for the keys the map holds, the one filed under that key |
| JsMap.SetAll | src/managers/TeacherManager.ts:18-20 | the `forEach` of `set` calls keeps the map well formed and leaves every key outside the list as it was |
| JsMap.Set | src/managers/CourseManager.ts:31 | `Map.set` maps the key to the value, changes no other key, and appends the key only when it is new |
| JsMap.Delete | src/managers/CourseManager.ts:68 | `Map.delete` removes that key only and keeps the order of the rest |
| JsMap.ValueList | src/managers/CourseManager.ts:46 | `Array.from(map.values())` lists the value of each key in insertion order |
| JsMap.SetAllMaps | src/managers/TeacherManager.ts:18-20 | setting a duplicate-free key list maps each key to its value |
| JsMap.SetAllOrder | src/managers/TeacherManager.ts:18-20 | setting fresh keys appends them in order |
| CourseManager.Initialize | src/managers/CourseManager.ts:15-20 | caches every stored course, rebuilt, under its id, in key order |
| CourseManager.AddCourse | src/managers/CourseManager.ts:29-32 | a refused save leaves the manager unchanged; otherwise the store and the cache both gain the course under its id |
| CourseManager.GetCourse | src/managers/CourseManager.ts:34-43 | a hit is returned with no DAO call; a miss reads through |
| CourseManager.ReadThrough | src/managers/CourseManager.ts:39-42 | on a miss the rebuilt course is cached under the id exactly when the store has it |
| CourseManager.GetAllCourses | src/managers/CourseManager.ts:45-47 | exactly the cached courses in cache order |
| CourseManager.GetCoursesByTeacher | src/managers/CourseManager.ts:49-51 | the DAO's answer; the cache is untouched and its invariant survives the new objects |
| CourseManager.GetCoursesByStudent | src/managers/CourseManager.ts:53-55 | always empty, as the DAO's answer is |
| CourseManager.GetCoursesBySubject | src/managers/CourseManager.ts:57-59 | the DAO's answer; the cache is untouched |
| CourseManager.UpdateCourse | src/managers/CourseManager.ts:61-64 | the store and the cache both map the id to this course; other keys unchanged |
| CourseManager.DeleteCourse | src/managers/CourseManager.ts:66-69 | the store and the cache both lose the id; other keys unchanged |
| CourseManager.AddThenGet | src/managers/CourseManager.ts:29-43 | after a successful add, get returns that very object from the cache |
| CourseManager.UpdateThenGet | src/managers/CourseManager.ts:34-64 | after an update, get returns that very object |
| CourseManager.DeleteThenGet | src/managers/CourseManager.ts:34-69 | after a delete, get finds nothing |
| CourseManager.GetTwice | src/managers/CourseManager.ts:34-43 | a second get is a cache hit with the same answer and no new objects |
| CourseManager.InitializeThenGetAll | src/managers/CourseManager.ts:15-47 | after initialisation, getAll lists one rebuilt course per record, in key order |
| StudentManager.Initialize | src/managers/StudentManager.ts:16-21 | caches every stored student, rebuilt, under its id |
| StudentManager.AddStudent | src/managers/StudentManager.ts:30-33 | fails exactly when the id is stored or the email is taken, leaving the manager unchanged; otherwise store and cache gain the student |
| StudentManager.GetStudent | src/managers/StudentManager.ts:35-44 | a hit is returned with no DAO call; a miss reads through |
| StudentManager.ReadThrough | src/managers/StudentManager.ts:39-43 | on a miss the rebuilt student is cached under the id exactly when the store has it |
| StudentManager.GetAllStudents | src/managers/StudentManager.ts:46-48 | exactly the cached students in cache order |
| StudentManager.GetStudentByEmail | src/managers/StudentManager.ts:50-52 | the DAO's answer; the cache is untouched |
| StudentManager.GetStudentsByCourse | src/managers/StudentManager.ts:54-56 | the DAO's answer; the cache is untouched |
| StudentManager.UpdateStudent | src/managers/StudentManager.ts:58-61 | fails exactly when another record has the email, leaving the manager unchanged; otherwise store and cache map the id to this student |
| StudentManager.DeleteStudent | src/managers/StudentManager.ts:63-66 | the DAO refuses, so the cache keeps the student and the call fails |
| StudentManager.CachedUpdateSucceeds | src/managers/StudentManager.ts:58-61 | writing back a cached student never clashes on the email index |
| StudentManager.AddServiceToStudent | src/managers/StudentManager.ts:68-74 | nothing for an unknown id; otherwise the student got by `getStudent` gains the service and is written back |
| StudentManager.AddServiceToCached | src/managers/StudentManager.ts:71-72 | the heap is exactly `addService` applied to the cached student, and the store files that student's new document under the id |
| StudentManager.EnrollStudentInCourse | src/managers/StudentManager.ts:76-82 | nothing for an unknown id; otherwise the student is enrolled and written back |
| StudentManager.EnrollCached | src/managers/StudentManager.ts:79-80 | the heap is exactly `enroll` applied to the cached student: it lists the course and joins the roster when newly enrolled; the store files its new document |
| StudentManager.AddThenGet | src/managers/StudentManager.ts:30-44 | after a successful add, get returns that very object |
| StudentManager.UpdateThenGet | src/managers/StudentManager.ts:35-61 | after a successful update, get returns that very object |
| StudentManager.GetTwice | src/managers/StudentManager.ts:35-44 | a second get is a cache hit with the same answer |
| StudentManager.InitializeThenGetAll | src/managers/StudentManager.ts:16-48 | after initialisation, getAll lists one rebuilt student per record, in key order |
| TeacherManager.Initialize | src/managers/TeacherManager.ts:16-21 | caches every stored document, as a plain document, under its id in key order |
| TeacherManager.AddTeacher | src/managers/TeacherManager.ts:30-33 | over the corrected `TeacherDao.Save`: fails exactly when the id is stored or the email is taken, leaving the manager unchanged; otherwise store and cache gain the teacher |
| TeacherManager.GetTeacher | src/managers/TeacherManager.ts:35-44 | a hit is returned with no DAO call; a miss reads through |
| TeacherManager.ReadThrough | src/managers/TeacherManager.ts:39-43 | on a miss the stored document is cached as a plain document exactly when the store has it |
| TeacherManager.GetAllTeachers | src/managers/TeacherManager.ts:46-48 | exactly the cached values in cache order |
| TeacherManager.GetTeacherByEmail | src/managers/TeacherManager.ts:50-52 | the one stored document with that email, if any |
| TeacherManager.GetTeacherByCourse | src/managers/TeacherManager.ts:54-56 | a stored document listing the course, found exactly when one exists |
| TeacherManager.UpdateTeacher | src/managers/TeacherManager.ts:58-61 | over the corrected `TeacherDao.Update`: fails exactly when another record has the email; otherwise store and cache map the id to this teacher |
| TeacherManager.AddTeacherAsWritten | src/managers/TeacherManager.ts:30-33 | over the DAO's `save` as written, `addTeacher` is always refused with a DataError and the manager is unchanged |
| TeacherManager.UpdateTeacherAsWritten | src/managers/TeacherManager.ts:58-61 | over the DAO's `update` as written, `updateTeacher` is always refused with a DataError and the manager is unchanged |
| TeacherManager.AssignOverPlainCacheChangesNothing | src/managers/TeacherManager.ts:68-74 | when every cached value is a plain document, `assignCourseToTeacher` leaves the heap unchanged, keeps the cache plain, and ends with no error or a TypeError |
| TeacherManager.DeleteTeacher | src/managers/TeacherManager.ts:63-66 | the store and the cache both lose the id; other keys unchanged |
| TeacherManager.CachedUpdateSucceeds | src/managers/TeacherManager.ts:58-61 | writing back a cached teacher object never clashes on the email index |
| TeacherManager.AssignCourseToTeacher | src/managers/TeacherManager.ts:68-74 | nothing for an unknown id; a TypeError for a cached plain document; otherwise the course is assigned and the teacher written back |
| TeacherManager.AssignToInstance | src/managers/TeacherManager.ts:71-72 | the heap is exactly `assignCourse` applied to the cached teacher: it lists the course and the course names it when newly assigned; only the teacher's document is written to the store |
| TeacherManager.AssignAfterInitializeFails | src/managers/TeacherManager.ts:16-21 | right after initialisation, assigning a course to any stored teacher fails with a TypeError |
| TeacherManager.AddThenGet | src/managers/TeacherManager.ts:30-44 | after a successful add, get returns that very object |
| TeacherManager.UpdateThenGet | src/managers/TeacherManager.ts:35-61 | after a successful update, get returns that very object |
| TeacherManager.DeleteThenGet | src/managers/TeacherManager.ts:35-66 | after a delete, get finds nothing |
| TeacherManager.GetTwice | src/managers/TeacherManager.ts:35-44 | a second get is a cache hit with the same answer |
| TeacherManager.InitializeThenGetAll | src/managers/TeacherManager.ts:16-48 | after initialisation, getAll lists the stored documents in key order |
| ResourceManager.Create | src/managers/ResourceManager.ts:5-7 | a new manager maps no id, and its invariant holds over any heap |
| ResourceManager.AddResource | src/managers/ResourceManager.ts:16-18 | maps the resource's id to it and changes no other key |
| ResourceManager.GetResource | src/managers/ResourceManager.ts:20-22 | found exactly when the id is mapped; the object returned is the one whose entry the map files under the id (not merely some resource carrying that id), and its id is that id |
| ResourceManager.GetResourceIsFiled | src/managers/ResourceManager.ts:20-22 | `getResource(id)` returns a resource exactly when the map files that resource under the id, so another object carrying the same id is never returned |
| ResourceManager.GetAllResources | src/managers/ResourceManager.ts:24-26 | exactly the mapped resources in insertion order |
| ResourceManager.AllocateResource | src/managers/ResourceManager.ts:28-33 | nothing for an unknown id; otherwise fails exactly when the resource is unavailable, else the resource's `available` flag becomes false and nothing else changes |
| ResourceManager.ReleaseResource | src/managers/ResourceManager.ts:35-40 | nothing for an unknown id; otherwise the resource's `available` flag becomes true and nothing else changes |
| ResourceManager.AddThenGet | src/managers/ResourceManager.ts:16-22 | after an add, its id finds the resource and other ids answer as before |
| ResourceManager.AllocateThenRelease | src/managers/ResourceManager.ts:28-40 | allocating and then releasing the same id restores the heap |
| ResourceManager.AllocateTwiceFails | src/managers/ResourceManager.ts:28-33 | allocating a known id twice fails the second time |

## Left out

- Opening the database (`getDB`, `onupgradeneeded`) and transactions: every DAO call
  runs against one store value, and no failure other than the constraint and key
  errors is modelled.
- Promises and interleaving: each `await` is a sequential step. A TypeError thrown
  inside an IndexedDB success callback would leave the promise pending; the model
  reports it as a failure.
- The singletons (`getInstance`) and constructors that start `initializeX` without
  awaiting it: `Initialize` is a separate step taking the store as it then is.
- `uuidv4()` ids: constructors take the id as a parameter.
- Structured clone: a store holds the `toJSON` document. The only exception is the
  teacher DAO's clone of the object itself, in `TeacherDao.AddObjectAsWritten`.
- The non-unique `subject` and `teacherId` indexes of the course store: the code never
  queries them, because its finders filter `findAll`.
- `IndexedDBResourceDAO`, the `src/dao` interfaces and the test programs are not part
  of this model. The managers import DAOs from `src/dao`, which holds only interfaces,
  so the model wires them to the controller DAOs above.
- CourseManager.AddCourse: requires the course to be serialisable (its teacher, students
  and resources live in the heap); the source would throw on a dangling reference.
- StudentDao.FindById: requires every stored record to carry `enrolledCourses`
  (`StoreOk`), because a record written through `save` or `update` always does.
  `Student.fromJSON`'s TypeError on a foreign record is stated by StudentJson.FromJSON
  and is not carried up to the DAO reads.
- Other writers to the same database: each manager's invariant assumes that its own
  DAO is the only writer, so every cached id stays stored.
- TeacherDao.FindByCourse: requires every stored record to carry `courses` (`StoreOk`),
  because every record the DAO writes is a `toJSON` document, which always carries the
  array. On a foreign record without `courses`, `findByCourse` would throw a TypeError
  at `teacher.courses.some(...)` and reject; that failure is not modelled, and the
  `None` case of `Teaches` is never reached.
- StudentJson.FromJSON: a document's `extraServices` is always an array here, so a
  document without it cannot be expressed. `Student.fromJSON` would copy `undefined`
  into `_extraServices`, and a later `extraServices` read or `addService` would throw
  a TypeError. Every document the student DAO writes comes from `toJSON`, which always
  carries the array.
- KeyOrder.Less: compares Dafny characters, which are Unicode scalar values, so keys
  sort by code point. IndexedDB compares UTF-16 code units. The two orders agree on
  keys with no character above U+FFFF (the uuid keys the application makes are ASCII).
  They can differ otherwise: IndexedDB sorts "\u{10000}" before "\u{E000}", and the model
  sorts it after. Keys holding a lone surrogate cannot be expressed.
- TeacherManager.AddTeacher / UpdateTeacher: modelled over the corrected DAO writes
  (TeacherDao.Save, TeacherDao.Update) from "## Findings". So are the rows that build on
  them: TeacherManager.CachedUpdateSucceeds, AssignToInstance, AddThenGet and UpdateThenGet.
  With the code as written, every `addTeacher` and `updateTeacher` is refused with a
  DataError and leaves the manager unchanged (TeacherManager.AddTeacherAsWritten,
  TeacherManager.UpdateTeacherAsWritten). The cache then only ever holds plain documents,
  and over such a cache `assignCourseToTeacher` never changes anything
  (TeacherManager.AssignOverPlainCacheChangesNothing).
- StudentJson.RoundTrip: the round trip is the identity on the document only. In memory,
  `toJSON` hands out the student's own services array and `fromJSON` installs it, so the
  rebuilt student shares that array with the original, and `addService` on one shows on
  the other. Value sequences cannot express this sharing. No modelled path reaches it:
  the DAO stores a structured clone, and `findByCourse` rebuilds from getter copies.
- TeacherManager.GetTeacherByCourse: states that the document found lists the course
  and that one is found exactly when some stored document does; which one (the first
  in key order) is stated by TeacherDao.FindByCourse.

## Findings

| source | as written | input that shows it | evidently intended | confidence | as-written member | corrected member |
|---|---|---|---|---|---|---|
| src/controllers/IndexedDBTeacherDAO.ts:36 | `store.add(teacher)` stores the `Teacher` object. Its structured clone has only the own fields `_id`, `_name`, `_email` and `_courses`, and no `id`. | any teacher, for example `new Teacher("Ann", "ann@x")` saved into an empty store: key path `id` yields no key, so `add` fails with a DataError | store `teacher.toJSON()`, as the student and course DAOs do | not executed | TeacherDao.AddObjectAsWrittenAlwaysFails | TeacherDao.Save |
| src/controllers/IndexedDBTeacherDAO.ts:92 | `store.put(teacher)` stores the `Teacher` object, whose clone has no own `id`. | any teacher passed to `update`: key path `id` yields no key, so `put` fails with a DataError | store `teacher.toJSON()` | not executed | TeacherDao.PutObjectAsWrittenAlwaysFails | TeacherDao.Update |
