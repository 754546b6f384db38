# BatePapoUol participant registry and message-body rules, in Dafny

This project models the core of a small chat REST server written for Node.js
with Express and Joi:

- the **participant registry** of `index.js`: a module-level list of records
  `{name, lastStatus}`, the `POST /participants` handler that answers 422 for
  a missing or falsy name, 409 for a name already listed (compared with
  `===`) and otherwise appends one record and answers 201, and the
  `GET /participants` handler that sends the list;
- the **message body schema** of `MiddleWares/messageMiddleware.js`: `to` and
  `text` must be strings of length at least 1, and `type` must be
  `"message"` or `"private_message"`; all three are required.

Files:

- `wrappers.dfy` — module `Wrappers`, the `Option` datatype.
- `js_values.dfy` — module `JsValues`: the values a parsed JSON body can
  hold (`undefined` for an absent field, `null`, booleans, numbers, strings,
  and objects or arrays by identity), JavaScript falsiness (`!v`) and strict
  equality (`===`).
- `registry.dfy` — module `Registry`: records, the pure meaning of a
  registration (`Registration`) and of `find` (`FirstIndex`, `FindByName`),
  the invariant that registrations keep (`WellFormed`: names unique and
  truthy, every `lastStatus` the constant), and class `ParticipantRegistry`,
  which holds the list as a `seq` field and has the two handlers as methods
  plus `Find`, the linear search of `participants.find`.
- `message_schema.dfy` — module `MessageSchema`: the schema written as data
  (`BodySchema`, one `Rule` per field, built from the same Joi calls), the
  meaning of those calls (`Satisfies`), the predicate `ValidBody`, and the
  lemma that states which bodies it accepts.

The request's `name` is any JSON value, not only a string: `!name` is true
for `undefined`, `null`, `false`, `0` and `""`, and `===` compares
primitives by value and objects by identity. A number is the finite double
that `JSON.parse` produced, or an infinity of either sign for a literal too
large for a double. JSON cannot carry `NaN`, so `===` is equality of the
modelled values. Every object or array in a request body is freshly parsed,
so its identity is new: an object name is never `===` to a stored one and
is always registered with 201. The new record's `lastStatus`
is the literal string `"Date.now()"` that the source writes; no clock is read.
Validation is a Dafny predicate over immutable values, so the same body
always gets the same verdict and the body is never changed.

## Model

| member | source | states |
|---|---|---|
| `JsValues.Falsy` | index.js:18 | `!name`: true exactly for `undefined`, `null`, `false`, `0` and `""`; false for every other string, number, infinity and object |
| `JsValues.StrictEquals` | index.js:22 | `a === b`: primitives of the same type with the same value, infinities of the same sign, or the same object |
| `Registry.FindByName` | index.js:22 | `participants.find(i => i.name === name)`: some record exactly when a record's name is `===` to the input, and then a record of the list with that name (the first, through `FirstIndex`) |
| `Registry.FirstIndex` | index.js:22 | the search finds a record exactly when some record's name is `===` to the input; the index found is of a matching record and no earlier record matches |
| `Registry.Registration` | index.js:14-38 | the answer is always 201, 409 or 422; 422 exactly when the name is falsy (checked before any duplicate test); 409 exactly when it is truthy and already listed; 201 exactly when it is truthy and new; on 201 the list becomes the old list plus the record `{name, "Date.now()"}` at the end, otherwise it is unchanged |
| `Registry.RegistrationPreservesWellFormed` | index.js:18-33 | from a list whose names are unique and truthy and whose last statuses are the constant, a registration leaves a list with the same properties |
| `Registry.RegistrationOnlyAppends` | index.js:33 | the list grows by one on 201 and by nothing otherwise, the old records keep their values and order as its prefix, and a new record sits at the end |
| `Registry.RegisteredNameIsFound` | index.js:22-33 | after a 201 the `find` lookup of the same name returns exactly the new record |
| `Registry.SecondRegistrationConflicts` | index.js:22-24 | registering a truthy name a second time answers 409 and leaves the list unchanged |
| `Registry.ParticipantRegistry.constructor` | index.js:8 | the server starts with an empty list, which satisfies the invariant |
| `Registry.ParticipantRegistry.List` | index.js:10-12 | returns the current list; it has no `modifies` clause, so nothing changes |
| `Registry.ParticipantRegistry.Find` | index.js:22 | the linear search returns the first record whose name is `===` to the input, or none, as `FindByName` specifies |
| `Registry.ParticipantRegistry.Register` | index.js:14-38 | returns the status and leaves the list that `Registration` gives for the old list, and keeps the invariant `Valid()` |
| `MessageSchema.ValidBody` | MiddleWares/messageMiddleware.js:3-7 | `bodySchema` applied to a body with fields `to`, `text` and `type`: every field passes the rule its Joi chain declares (required, base type, `min(1)`, `valid(...)`) |
| `MessageSchema.ValidBodyIff` | MiddleWares/messageMiddleware.js:3-7 | the declared schema accepts a body exactly when `to` and `text` are strings of length at least 1 and `type` is `"message"` or `"private_message"`; so a missing, null, non-string or empty `to` or `text`, and a missing or other `type`, is rejected |

## Left out

- The Express server, JSON and CORS middleware and `listen` (index.js:1-6, index.js:40): HTTP plumbing. The status codes are return values.
- The `res.send` and `res.sendStatus` calls (index.js:11, 19, 23, 34): response serialisation.
- Joi's own behaviour beyond the three field rules (MiddleWares/messageMiddleware.js:1): rejection of keys the schema does not name, type conversion, default values and the shape of its error reports. `ValidBody` takes exactly the three fields.
- `Num` holds the exact value of the finite double that `JSON.parse` produced; the rounding of a decimal literal to a double is not modelled, so `1e-400` (which parses to `0` and answers 422) and `1.00000000000000001` (which parses to `1`) must be given as the doubles they become.
- Strings holding a lone UTF-16 surrogate (`"\ud800"`), which JSON can carry and JavaScript keeps, are not represented: a Dafny `string` holds Unicode scalar values only.
- Lengths of strings are counted in Unicode scalar values, where JavaScript counts UTF-16 code units; for the only bound used, length at least 1, the two agree.
- Concurrent requests against the shared list: the model is one sequential store.
- Heartbeats, the inactivity sweep, message storage, visibility filtering and timestamps: none of these exist in the modelled files.
