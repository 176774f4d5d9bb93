/**
 The portal's fixture data: the record shapes and the constants every page
 reads (src/data/mockData.ts). Floating-point fields (grade averages) are
 omitted except the profile's CGPA, kept in hundredths.
 */
module MockData {
  import opened Optional

  type Code = string

  /* The signed-in student's profile (`studentData`, the `Student` interface);
     `collage` keeps the source's spelling of the field. */
  datatype Student = Student(
    id: string,
    matricNumber: string,
    firstName: string,
    lastName: string,
    fullName: string,
    email: string,
    phone: string,
    department: string,
    collage: string,
    level: string,
    session: string,
    semester: string,
    cgpaHundredths: int,
    avatar: Option<string>)

  /* An entry of the registration catalog (`availableCourses`). */
  datatype Course = Course(code: Code, title: string, credits: int, lecturer: string, status: string)

  /* An entry of `registeredCourses`: a catalog course without its status tag. */
  datatype RegisteredCourse = RegisteredCourse(code: Code, title: string, credits: int, lecturer: string)

  /* A weekly class slot of `timetable`. */
  datatype ClassSlot = ClassSlot(day: string, time: string, course: Code, venue: string, lecturer: string)

  /* An inbox entry of `notifications`; `kind` is the source's `type` field. */
  datatype Notification = Notification(id: int, title: string, message: string, date: string, kind: string, isRead: bool)

  /* A dashboard entry of `announcements`. */
  datatype Announcement = Announcement(id: int, title: string, content: string, date: string, category: string, isRead: bool)

  /* A graded course of a past semester. */
  datatype GradedCourse = GradedCourse(code: Code, title: string, credits: int, score: int, grade: string)

  /* A semester of `academicRecords` (its floating-point GPA is omitted). */
  datatype SemesterRecord = SemesterRecord(semester: string, session: string, level: string, courses: seq<GradedCourse>)

  datatype Payment = Payment(id: int, date: string, amount: int, reference: string, status: string)
  datatype FeeItem = FeeItem(item: string, amount: int)
  datatype Fees = Fees(
    session: string,
    totalFees: int,
    amountPaid: int,
    balance: int,
    dueDate: string,
    payments: seq<Payment>,
    breakdown: seq<FeeItem>)

  /* The integer fields of `dashboardStats` (its CGPA is a float and omitted). */
  datatype DashboardStats = DashboardStats(totalCourses: int, upcomingDeadlines: int, attendancePercentage: int)

  const studentData := Student(
    "STU/2023/12914", "2023/12914", "Temitayo", "Job", "Temitayo Job",
    "temitayo.job@bellsuniversity.edu.ng", "+234 812 345 6789",
    "Computer Science", "COLNAS", "300L", "2024/2025", "First Semester",
    372, None)

  const dashboardStats := DashboardStats(6, 3, 87)

  const announcements: seq<Announcement> := [
    Announcement(1, "Mid-Semester Examination Timetable Released",
      "The mid-semester examination timetable for the 2024/2025 session has been released. Please check your department notice board for details.", "2025-01-02", "Examination", false),
    Announcement(2, "Course Registration Deadline Extended",
      "The deadline for course registration has been extended to January 15, 2025. Students who have not registered are advised to do so immediately.", "2024-12-28", "Academic", false),
    Announcement(3, "School Fees Payment Reminder",
      "This is to remind all students that the deadline for school fees payment is January 31, 2025. Late payment attracts a penalty.", "2024-12-25", "Finance", true),
    Announcement(4, "Career Fair 2025",
      "The annual career fair will hold on February 10, 2025 at the main auditorium. All students are encouraged to attend.", "2024-12-20", "Events", true),
    Announcement(5, "Library Extended Hours",
      "The library will now operate from 7am to 10pm on weekdays during the examination period.", "2024-12-18", "General", true)
  ]

  const academicRecords: seq<SemesterRecord> := [
    SemesterRecord("First Semester", "2022/2023", "100L", [
      GradedCourse("CSC101", "Introduction to Computer Science", 3, 72, "B"),
      GradedCourse("MTH101", "General Mathematics I", 3, 68, "B"),
      GradedCourse("PHY101", "General Physics I", 3, 75, "A"),
      GradedCourse("GST101", "Use of English I", 2, 65, "B"),
      GradedCourse("GST103", "Nigerian Peoples and Culture", 2, 58, "C")]),
    SemesterRecord("Second Semester", "2022/2023", "100L", [
      GradedCourse("CSC102", "Introduction to Programming", 3, 78, "A"),
      GradedCourse("MTH102", "General Mathematics II", 3, 70, "B"),
      GradedCourse("PHY102", "General Physics II", 3, 72, "B"),
      GradedCourse("GST102", "Use of English II", 2, 68, "B"),
      GradedCourse("CSC104", "Computer Hardware", 3, 82, "A")]),
    SemesterRecord("First Semester", "2023/2024", "200L", [
      GradedCourse("CSC201", "Computer Programming I", 3, 85, "A"),
      GradedCourse("CSC203", "Discrete Mathematics", 3, 78, "A"),
      GradedCourse("CSC205", "Data Structures", 3, 72, "B"),
      GradedCourse("MTH201", "Mathematical Methods I", 3, 68, "B"),
      GradedCourse("STA201", "Statistics for Science", 3, 75, "A")]),
    SemesterRecord("Second Semester", "2023/2024", "200L", [
      GradedCourse("CSC202", "Computer Programming II", 3, 88, "A"),
      GradedCourse("CSC204", "Database Management Systems", 3, 82, "A"),
      GradedCourse("CSC206", "Operating Systems I", 3, 75, "A"),
      GradedCourse("MTH202", "Mathematical Methods II", 3, 70, "B"),
      GradedCourse("CSC208", "Web Development", 3, 90, "A")]),
    SemesterRecord("First Semester", "2024/2025", "300L", [
      GradedCourse("CSC301", "Algorithm Design & Analysis", 3, 78, "A"),
      GradedCourse("CSC303", "Software Engineering I", 3, 75, "A"),
      GradedCourse("CSC305", "Computer Networks", 3, 72, "B"),
      GradedCourse("CSC307", "Artificial Intelligence", 3, 80, "A"),
      GradedCourse("CSC309", "Operating Systems II", 3, 68, "B"),
      GradedCourse("CSC311", "Systems Programming", 3, 70, "B")])
  ]

  const availableCourses: seq<Course> := [
    Course("CSC301", "Algorithm Design & Analysis", 3, "Dr. Adekunle", "compulsory"),
    Course("CSC303", "Software Engineering I", 3, "Prof. Okafor", "compulsory"),
    Course("CSC305", "Computer Networks", 3, "Dr. Ibrahim", "compulsory"),
    Course("CSC307", "Artificial Intelligence", 3, "Dr. Adesanya", "compulsory"),
    Course("CSC309", "Operating Systems II", 3, "Dr. Bello", "compulsory"),
    Course("CSC311", "Systems Programming", 3, "Dr. Chukwu", "compulsory"),
    Course("CSC313", "Human Computer Interaction", 2, "Dr. Fadeyi", "elective"),
    Course("CSC315", "Mobile App Development", 2, "Mr. Ganiyu", "elective"),
    Course("CSC317", "Cloud Computing", 2, "Dr. Hassan", "elective"),
    Course("GST301", "Entrepreneurship", 2, "Dr. Ijeoma", "required")
  ]

  const registeredCourses: seq<RegisteredCourse> := [
    RegisteredCourse("CSC301", "Algorithm Design & Analysis", 3, "Dr. Adekunle"),
    RegisteredCourse("CSC303", "Software Engineering I", 3, "Prof. Okafor"),
    RegisteredCourse("CSC305", "Computer Networks", 3, "Dr. Ibrahim"),
    RegisteredCourse("CSC307", "Artificial Intelligence", 3, "Dr. Adesanya"),
    RegisteredCourse("CSC309", "Operating Systems II", 3, "Dr. Bello"),
    RegisteredCourse("CSC311", "Systems Programming", 3, "Dr. Chukwu")
  ]

  const timetable: seq<ClassSlot> := [
    ClassSlot("Monday", "08:00 - 10:00", "CSC301", "LT 101", "Dr. Adekunle"),
    ClassSlot("Monday", "10:00 - 12:00", "CSC303", "Lab 2", "Prof. Okafor"),
    ClassSlot("Monday", "14:00 - 16:00", "CSC305", "LT 203", "Dr. Ibrahim"),
    ClassSlot("Tuesday", "08:00 - 10:00", "CSC307", "Lab 1", "Dr. Adesanya"),
    ClassSlot("Tuesday", "12:00 - 14:00", "CSC309", "LT 102", "Dr. Bello"),
    ClassSlot("Wednesday", "08:00 - 10:00", "CSC311", "Lab 3", "Dr. Chukwu"),
    ClassSlot("Wednesday", "10:00 - 12:00", "CSC301", "LT 101", "Dr. Adekunle"),
    ClassSlot("Wednesday", "14:00 - 16:00", "CSC303", "LT 205", "Prof. Okafor"),
    ClassSlot("Thursday", "08:00 - 10:00", "CSC305", "Lab 2", "Dr. Ibrahim"),
    ClassSlot("Thursday", "10:00 - 12:00", "CSC307", "LT 103", "Dr. Adesanya"),
    ClassSlot("Friday", "08:00 - 10:00", "CSC309", "LT 201", "Dr. Bello"),
    ClassSlot("Friday", "10:00 - 12:00", "CSC311", "Lab 1", "Dr. Chukwu")
  ]

  const feesData := Fees(
    "2024/2025", 175000, 100000, 75000, "2025-01-31",
    [Payment(1, "2024-09-15", 50000, "PAY/2024/001234", "confirmed"),
     Payment(2, "2024-11-20", 50000, "PAY/2024/005678", "confirmed")],
    [FeeItem("Tuition Fee", 100000),
     FeeItem("Laboratory Fee", 25000),
     FeeItem("Library Fee", 15000),
     FeeItem("ICT Fee", 20000),
     FeeItem("Examination Fee", 10000),
     FeeItem("Student Union Dues", 5000)])

  const notifications: seq<Notification> := [
    Notification(1, "Mid-Semester Examination Timetable Released",
      "The mid-semester examination timetable for the 2024/2025 session has been released. Please check your department notice board for details.", "2025-01-02T09:30:00", "exam", false),
    Notification(2, "Course Registration Deadline Extended",
      "The deadline for course registration has been extended to January 15, 2025. Students who have not registered are advised to do so immediately.", "2024-12-28T14:00:00", "academic", false),
    Notification(3, "Assignment Submission Reminder",
      "Your CSC301 assignment is due tomorrow. Please ensure you submit before 11:59 PM.", "2024-12-27T08:00:00", "deadline", false),
    Notification(4, "School Fees Payment Reminder",
      "This is to remind you that your school fees balance of ₦75,000 is due by January 31, 2025.", "2024-12-25T10:00:00", "finance", true),
    Notification(5, "Career Fair 2025",
      "The annual career fair will hold on February 10, 2025 at the main auditorium. Top companies including Google, Microsoft, and MTN will be present.", "2024-12-20T11:30:00", "event", true),
    Notification(6, "Library Extended Hours",
      "The library will now operate from 7am to 10pm on weekdays during the examination period.", "2024-12-18T09:00:00", "general", true),
    Notification(7, "New Course Material Available",
      "Prof. Okafor has uploaded new course material for CSC303 Software Engineering. Please download from the portal.", "2024-12-15T16:45:00", "academic", true)
  ]
}
